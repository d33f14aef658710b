/** The session tokens the backend registered for one user (UserSessions):
    a short history, oldest first, and an exact-match validity test. */
module Sessions {
  /** AddSession drops the oldest token when more than this many are held. */
  const SessionCap: nat := 5

  /** The history after AddSession(key) on history `h`. */
  function Recorded(h: seq<string>, key: string): seq<string>
  {
    (if |h| > SessionCap then h[1..] else h) + [key]
  }

  /** The history a fresh store holds after the logins `keys`, in order. */
  function Replay(keys: seq<string>): seq<string>
  {
    if keys == [] then [] else Recorded(Replay(keys[..|keys| - 1]), keys[|keys| - 1])
  }

  /** One more login is one more AddSession. */
  lemma ReplaySnoc(keys: seq<string>, key: string)
    ensures Replay(keys + [key]) == Recorded(Replay(keys), key)
  {
    assert (keys + [key])[..|keys|] == keys;
  }

  /** The newest `k` entries of `s` (all of them when there are fewer). */
  function Newest<T>(s: seq<T>, k: nat): (r: seq<T>)
  {
    if |s| <= k then s else s[|s| - k..]
  }

  /** Recording drops at most the single oldest token: the result is the
      history plus the new token, minus the oldest when more than five
      were held, so a store never grows past six tokens. */
  lemma RecordedShape(h: seq<string>, key: string)
    ensures var r := Recorded(h, key);
            && r == Newest(h + [key], if |h| > SessionCap then |h| else |h| + 1)
            && r[|r| - 1] == key
            && (|h| <= SessionCap + 1 ==> |r| <= SessionCap + 1)
            && (|h| <= SessionCap ==> |r| == |h| + 1)
  {
    var hk := h + [key];
    if |h| > SessionCap {
      assert hk[|hk| - |h|..] == h[1..] + [key];
    }
  }

  /** A store fed the logins `keys` from empty holds exactly the six most
      recent ones, oldest first. */
  lemma {:induction false} ReplayKeepsNewestSix(keys: seq<string>)
    ensures Replay(keys) == Newest(keys, SessionCap + 1)
  {
    if keys != [] {
      var front := keys[..|keys| - 1];
      var key := keys[|keys| - 1];
      ReplayKeepsNewestSix(front);
      assert front + [key] == keys;
      var h := Newest(front, SessionCap + 1);
      if |front| > SessionCap + 1 {
        assert h[1..] + [key] == keys[|keys| - (SessionCap + 1)..];
      } else if |front| == SessionCap + 1 {
        assert h[1..] + [key] == keys[1..];
      }
    }
  }

  /** A token is valid after a run of logins iff it was one of the last six
      of them: the just-added token always is, the seventh most recent is not
      unless it came again later. */
  lemma ValidAfterLogins(keys: seq<string>, key: string)
    ensures key in Replay(keys) <==> key in Newest(keys, SessionCap + 1)
    ensures keys != [] ==> keys[|keys| - 1] in Replay(keys)
  {
    ReplayKeepsNewestSix(keys);
  }

  /** The store holds six tokens before it evicts: after six distinct
      logins the first one is still valid, and a seventh login evicts it. */
  lemma SixKeptSeventhEvicts(keys: seq<string>, key: string)
    requires |keys| == SessionCap + 1 && keys[0] !in keys[1..] && key != keys[0]
    ensures keys[0] in Replay(keys)
    ensures keys[0] !in Replay(keys + [key])
    ensures key in Replay(keys + [key])
  {
    ReplayKeepsNewestSix(keys);
    ReplayKeepsNewestSix(keys + [key]);
    assert (keys + [key])[1..] == keys[1..] + [key];
  }

  class UserSessions {
    /** The tokens, oldest first. */
    var sessions: seq<string>
    /** The user the store belongs to. */
    ghost const owner: string

    ghost predicate Valid()
      reads this
    {
      |sessions| <= SessionCap + 1
    }

    constructor (ghost owner: string)
      ensures sessions == [] && this.owner == owner
      ensures Valid()
    {
      sessions := [];
      this.owner := owner;
    }

    /** AddSession(sessionKey): the oldest token is spliced off when more than
        five are held, then the new token is pushed. */
    method AddSession(sessionKey: string)
      modifies this
      ensures sessions == Recorded(old(sessions), sessionKey)
      ensures old(Valid()) ==> Valid()
      ensures sessionKey in sessions
    {
      RecordedShape(sessions, sessionKey);
      if |sessions| > SessionCap {
        sessions := sessions[1..];
      }
      sessions := sessions + [sessionKey];
    }

    /** IsValidSession(sessionKey): a linear search for an equal token. */
    method IsValidSession(sessionKey: string) returns (valid: bool)
      ensures valid <==> sessionKey in sessions
    {
      for i := 0 to |sessions|
        invariant sessionKey !in sessions[..i]
      {
        if sessionKey == sessions[i] {
          return true;
        }
        assert sessions[..i + 1] == sessions[..i] + [sessions[i]];
      }
      assert sessions[..|sessions|] == sessions;
      return false;
    }
  }
}
