/** The relay's registries (ChatServer): users by id, chats by id and the
    session store of each user; the periodic offline sweep; the chat hiding
    rule; and the checks the socket handlers make before acting. */
module Server {
  import opened Wire
  import opened Users
  import opened Chats
  import opened Sessions

  /** What a handler's guard leads to: the handler goes on, does nothing,
      or is aborted by a TypeError (caught and logged around every handler)
      because the chat id names no chat. */
  datatype Gate = Proceed | Refuse | Abort

  // ---------------------------------------------------------------------
  // The hide rule of OpenChatAux and of the chat previews

  /** How many of `arr` are in the block list `blocked`. */
  function BlockedCount(blocked: seq<ChatUser?>, arr: seq<ChatUser>): (k: nat)
    ensures k <= |arr|
  {
    if arr == [] then 0
    else BlockedCount(blocked, arr[..|arr| - 1]) + (if arr[|arr| - 1] in blocked then 1 else 0)
  }

  /** The counting loop over a chat's participants: the chat is not shown to
      `me` when `me` blocked all but one of them. */
  method HiddenFrom(me: ChatUser, arr: seq<ChatUser>) returns (hidden: bool)
    ensures hidden <==> BlockedCount(me.blocked, arr) == |arr| - 1
  {
    var blocked := 0;
    for i := 0 to |arr|
      invariant blocked == BlockedCount(me.blocked, arr[..i])
    {
      var b := me.IsBlocked(arr[i]);
      assert arr[..i + 1][..i] == arr[..i];
      if b {
        blocked := blocked + 1;
      }
    }
    assert arr[..|arr|] == arr;
    hidden := blocked == |arr| - 1;
  }

  /** Every element is counted iff every element is blocked. */
  lemma {:induction false} CountAll(blocked: seq<ChatUser?>, arr: seq<ChatUser>)
    ensures BlockedCount(blocked, arr) == |arr| <==> forall p :: p in arr ==> p in blocked
  {
    if arr != [] {
      var front := arr[..|arr| - 1];
      CountAll(blocked, front);
      assert arr == front + [arr[|arr| - 1]];
    }
  }

  /** With the requester in the list once and not blocked by itself, the
      rule hides the chat exactly when the requester blocked every other
      participant. */
  lemma {:induction false} HiddenIffOthersBlocked(blocked: seq<ChatUser?>, me: ChatUser, arr: seq<ChatUser>)
    requires NoDuplicates(arr) && me in arr && me !in blocked
    ensures BlockedCount(blocked, arr) == |arr| - 1 <==> forall p :: p in arr && p != me ==> p in blocked
  {
    var front, last := arr[..|arr| - 1], arr[|arr| - 1];
    assert arr == front + [last];
    assert NoDuplicates(front);
    if last == me {
      assert me !in front;
      CountAll(blocked, front);
    } else {
      assert me in front;
      HiddenIffOthersBlocked(blocked, me, front);
      CountAll(blocked, front);
    }
  }

  /** In a conversation of two the rule hides the chat iff the other one is
      blocked; a conversation of one, the requester alone, is always hidden. */
  lemma HiddenPairs(blocked: seq<ChatUser?>, me: ChatUser, other: ChatUser)
    requires me !in blocked
    ensures BlockedCount(blocked, [me]) == 0
    ensures me != other ==> (BlockedCount(blocked, [me, other]) == 1 <==> other in blocked)
  {
    assert [me, other][..1] == [me];
    assert [me][..0] == [];
  }

  // ---------------------------------------------------------------------
  // The server

  /** The users of a list, by id. */
  function IdsOf(us: seq<ChatUser>): set<UserId>
  {
    set u | u in us :: u.userUID
  }

  /** The position of the first user of `us` with id `k`. */
  function FirstIndex(us: seq<ChatUser>, k: UserId): (j: nat)
    requires k in IdsOf(us)
    ensures j < |us| && us[j].userUID == k
    ensures forall i :: 0 <= i < j ==> us[i].userUID != k
  {
    var front := us[..|us| - 1];
    if k in IdsOf(front) then FirstIndex(front, k)
    else
      assert forall i :: 0 <= i < |us| - 1 ==> us[i] in front;
      |us| - 1
  }

  /** A roster after the users `us` ask to join, in order. */
  function JoinedAll(roster: map<UserId, ChatUser>, us: seq<ChatUser>): map<UserId, ChatUser>
  {
    if us == [] then roster else Joined(JoinedAll(roster, us[..|us| - 1]), us[|us| - 1])
  }

  /** Joining a list: every id of the list is added, taken by the first user
      of the list with that id, and the ids already present keep their user. */
  lemma JoinedAllTable(roster: map<UserId, ChatUser>, us: seq<ChatUser>)
    ensures JoinedAll(roster, us).Keys == roster.Keys + IdsOf(us)
    ensures forall k :: k in roster ==> JoinedAll(roster, us)[k] == roster[k]
    ensures forall k :: k in IdsOf(us) && k !in roster ==> JoinedAll(roster, us)[k] == us[FirstIndex(us, k)]
  {
    JoinedAllKeys(roster, us);
    JoinedAllKeeps(roster, us);
    JoinedAllFirst(roster, us);
  }

  lemma {:induction false} JoinedAllKeys(roster: map<UserId, ChatUser>, us: seq<ChatUser>)
    ensures JoinedAll(roster, us).Keys == roster.Keys + IdsOf(us)
  {
    if us != [] {
      JoinedAllKeys(roster, us[..|us| - 1]);
      IdsOfSnoc(us, |us| - 1);
      assert us[..|us|] == us;
    }
  }

  lemma {:induction false} JoinedAllKeeps(roster: map<UserId, ChatUser>, us: seq<ChatUser>)
    ensures forall k :: k in roster ==> k in JoinedAll(roster, us) && JoinedAll(roster, us)[k] == roster[k]
  {
    if us != [] {
      JoinedAllKeeps(roster, us[..|us| - 1]);
    }
  }

  lemma {:induction false} JoinedAllFirst(roster: map<UserId, ChatUser>, us: seq<ChatUser>)
    ensures forall k :: k in IdsOf(us) && k !in roster ==>
              k in JoinedAll(roster, us) && JoinedAll(roster, us)[k] == us[FirstIndex(us, k)]
  {
    if us != [] {
      var front := us[..|us| - 1];
      JoinedAllFirst(roster, front);
      JoinedAllKeys(roster, front);
      IdsOfSnoc(us, |us| - 1);
      assert us[..|us|] == us;
      FirstIndexSnoc(us, |us| - 1);
    }
  }

  /** The loop of StoreChat: AddParticipant for every user of `us`, in order. */
  method AddAll(chat: ChatInstance, us: seq<ChatUser>)
    requires chat.Valid()
    modifies chat
    ensures chat.Valid()
    ensures chat.Roster() == JoinedAll(old(chat.Roster()), us)
    ensures chat.isGroupChat == (old(chat.isGroupChat) || chat.n > 2)
  {
    for i := 0 to |us|
      invariant chat.Valid()
      invariant chat.Roster() == JoinedAll(old(chat.Roster()), us[..i])
      invariant chat.isGroupChat == (old(chat.isGroupChat) || chat.n > 2)
    {
      assert us[..i + 1][..i] == us[..i];
      chat.AddParticipant(us[i]);
    }
    assert us[..|us|] == us;
  }

  lemma IdsOfSnoc(us: seq<ChatUser>, i: nat)
    requires i < |us|
    ensures IdsOf(us[..i + 1]) == IdsOf(us[..i]) + {us[i].userUID}
  {
    assert us[..i + 1] == us[..i] + [us[i]];
  }

  /** A second update of the same key overrides the first. */
  lemma UpdateTwice<K, V>(m: map<K, V>, k: K, a: V, b: V)
    ensures m[k := a][k := b] == m[k := b]
  {
    var lhs, rhs := m[k := a][k := b], m[k := b];
    assert lhs.Keys == rhs.Keys;
    forall x | x in lhs ensures lhs[x] == rhs[x] {
    }
  }

  class ChatServer {
    var users: map<UserId, ChatUser>
    var chats: map<ChatId, ChatInstance>
    var activeSessions: map<UserId, UserSessions>
    /** Every session key registered for each user, oldest first. */
    ghost var logins: map<UserId, seq<string>>

    constructor ()
      ensures users == map[] && chats == map[] && activeSessions == map[]
      ensures UsersValid() && ChatsValid() && SessionsValid()
    {
      users := map[];
      chats := map[];
      activeSessions := map[];
      logins := map[];
    }

    /** Each user filed under its own id. */
    ghost predicate UsersValid()
      reads this
    {
      forall u :: u in users ==> users[u].userUID == u
    }

    /** Each chat filed under its own id, with its participant table in order. */
    ghost predicate ChatsValid()
      reads this, chats.Values
    {
      forall id :: id in chats ==> chats[id].chatUID == id && chats[id].Valid()
    }

    /** Each user's store, its own, holds the newest of the keys
        registered for that user. */
    ghost predicate SessionsValid()
      reads this, activeSessions.Values
    {
      && logins.Keys == activeSessions.Keys
      && (forall u :: u in activeSessions ==> activeSessions[u].sessions == Replay(logins[u]))
      && (forall u :: u in activeSessions ==> activeSessions[u].owner == u)
    }

    /** The user `uid` holds the session key `key`. */
    ghost predicate SessionOpen(uid: UserId, key: string)
      reads this, activeSessions.Values
    {
      uid in activeSessions && key in activeSessions[uid].sessions
    }

    /** The user table entry LoadUsers and Login write: a new ChatUser
        replaces whatever was filed under `id`. */
    method RegisterUser(id: UserId, name: string, isDisabled: bool, pictureHash: string, now: int)
      returns (user: ChatUser)
      modifies this`users
      ensures fresh(user) && users == old(users)[id := user]
      ensures user.userUID == id && user.isOffline && user.activeSockets == {} && user.isDisabled == isDisabled
      ensures old(UsersValid()) ==> UsersValid()
    {
      user := new ChatUser(id, name, isDisabled, pictureHash, now);
      users := users[id := user];
    }

    /** The lookup Login makes for itself and for each contact: the user
        filed under `id`, or a new one filed there when there is none. */
    method UserFor(id: UserId, name: string, isDisabled: bool, pictureHash: string, now: int)
      returns (user: ChatUser)
      requires UsersValid()
      modifies this`users
      ensures UsersValid() && id in users && users[id] == user && user.userUID == id
      ensures id in old(users) ==> users == old(users) && user == old(users[id])
      ensures id !in old(users) ==> fresh(user) && users == old(users)[id := user] && user.isOffline
    {
      if id in users {
        return users[id];
      }
      user := RegisterUser(id, name, isDisabled, pictureHash, now);
    }

    ghost function SessionsAt(uid: UserId): set<UserSessions>
      reads this
    {
      if uid in activeSessions then {activeSessions[uid]} else {}
    }

    /** UpdateSessionKey: a store is created on first use, then the key is
        recorded. The key joins the user's logins and, as SessionsValid ties
        every store to its user's logins, no other user's store changes. */
    method UpdateSessionKey(userUID: UserId, sessionKey: string)
      requires SessionsValid()
      modifies this`activeSessions, this`logins, SessionsAt(userUID)
      ensures SessionsValid()
      ensures logins == old(logins)[userUID := (if userUID in old(logins) then old(logins[userUID]) else []) + [sessionKey]]
      ensures userUID in activeSessions && activeSessions == old(activeSessions)[userUID := activeSessions[userUID]]
      ensures userUID in old(activeSessions) ==> activeSessions[userUID] == old(activeSessions[userUID])
      ensures userUID !in old(activeSessions) ==> fresh(activeSessions[userUID])
      ensures SessionOpen(userUID, sessionKey)
    {
      ghost var base := if userUID in logins then logins[userUID] else [];
      ghost var before := logins;
      var store := StoreOf(userUID);
      RecordSession(userUID, store, sessionKey);
      UpdateTwice(before, userUID, base, base + [sessionKey]);
    }

    /** The head of UpdateSessionKey: the user's store, created empty and
        filed when there is none yet. */
    method StoreOf(userUID: UserId) returns (store: UserSessions)
      requires SessionsValid()
      modifies this`activeSessions, this`logins
      ensures SessionsValid()
      ensures activeSessions == old(activeSessions)[userUID := store]
      ensures logins == old(logins)[userUID := if userUID in old(logins) then old(logins[userUID]) else []]
      ensures userUID in old(activeSessions) ==> store == old(activeSessions[userUID])
      ensures userUID !in old(activeSessions) ==> fresh(store)
    {
      if userUID in activeSessions {
        return activeSessions[userUID];
      }
      store := new UserSessions(userUID);
      activeSessions := activeSessions[userUID := store];
      logins := logins[userUID := []];
    }

    /** The tail of UpdateSessionKey: the key recorded in the user's store. */
    method RecordSession(userUID: UserId, store: UserSessions, sessionKey: string)
      requires SessionsValid() && userUID in activeSessions && activeSessions[userUID] == store
      modifies this`logins, store
      ensures SessionsValid() && activeSessions == old(activeSessions)
      ensures logins == old(logins)[userUID := old(logins[userUID]) + [sessionKey]]
      ensures sessionKey in store.sessions
    {
      ghost var keys := logins[userUID];
      ReplaySnoc(keys, sessionKey);
      store.AddSession(sessionKey);
      logins := logins[userUID := keys + [sessionKey]];
      forall u | u in activeSessions
        ensures activeSessions[u].sessions == Replay(logins[u])
      {
        if u != userUID {
          assert activeSessions[u].owner != store.owner;
        }
      }
    }

    /** IsValidSession(userKey, sessionKey): an unknown user holds no valid
        key; a known one holds exactly the six newest it registered. */
    method IsValidSession(userKey: UserId, sessionKey: string) returns (valid: bool)
      ensures valid <==> SessionOpen(userKey, sessionKey)
      ensures SessionsValid() ==>
                (valid <==> userKey in logins && sessionKey in Newest(logins[userKey], SessionCap + 1))
    {
      if userKey !in activeSessions {
        return false;
      }
      valid := activeSessions[userKey].IsValidSession(sessionKey);
      if SessionsValid() {
        ValidAfterLogins(logins[userKey], sessionKey);
      }
    }

    ghost function ChatAt(id: ChatId): set<ChatInstance>
      reads this
    {
      if id in chats then {chats[id]} else {}
    }

    /** StoreChat(id, users): the chat is created on first use, then every
        user of `us` is added in order (JoinedAllTable says what that gives);
        the group flag is raised once the chat has more than two participants. */
    method StoreChat(id: ChatId, us: seq<ChatUser>)
      requires ChatsValid()
      modifies this`chats, ChatAt(id)
      ensures ChatsValid()
      ensures id in chats && chats == old(chats)[id := chats[id]]
      ensures id in old(chats) ==> chats[id] == old(chats[id])
      ensures id !in old(chats) ==> fresh(chats[id])
      ensures chats[id].Roster() == JoinedAll(if id in old(chats) then old(chats[id].Roster()) else map[], us)
      ensures chats[id].isGroupChat == ((id in old(chats) && old(chats[id].isGroupChat)) || chats[id].n > 2)
    {
      ghost var before := if id in chats then chats[id].Roster() else map[];
      ghost var flag := id in chats && chats[id].isGroupChat;
      var chat := ChatFor(id);
      assert ChatsValid();
      assert chats[id].Valid();
      assert chat.Roster() == before && chat.isGroupChat == flag;
      AddAll(chat, us);
      forall c | c in chats
        ensures chats[c].chatUID == c && chats[c].Valid()
      {
        if c != id {
          assert chats[c].chatUID != chat.chatUID;
        }
      }
    }

    /** The head of StoreChat: the chat filed under `id`, created empty and
        filed when there is none yet. */
    method ChatFor(id: ChatId) returns (chat: ChatInstance)
      requires ChatsValid()
      modifies this`chats
      ensures ChatsValid()
      ensures chats == old(chats)[id := chat] && chat.chatUID == id
      ensures id in old(chats) ==> chat == old(chats[id])
      ensures id !in old(chats) ==> fresh(chat) && chat.participants == map[] && !chat.isGroupChat
    {
      if id in chats {
        return chats[id];
      }
      chat := new ChatInstance(id);
      chats := chats[id := chat];
    }

    ghost function UserObjects(): set<ChatUser>
      reads this
    {
      users.Values
    }

    /** One tick of StatusDeamon: OfflineDeamonCall on every user, in the
        table's enumeration order. Exactly the users that were due go
        offline; a tick with no user due emits nothing. */
    method StatusDeamonTick(net: Network, now: int)
      requires UsersValid()
      modifies UserObjects()`isOffline, net
      ensures forall u :: u in users ==> users[u].isOffline == old(users[u].isOffline || users[u].OfflineDue(now))
      ensures (forall u :: u in users ==> !old(users[u].OfflineDue(now))) ==> net.outbox == old(net.outbox)
    {
      ghost var due := map u | u in users :: users[u].OfflineDue(now);
      ghost var was := map u | u in users :: users[u].isOffline;
      var pending := users.Keys;
      while pending != {}
        invariant Swept(was, due, pending, now)
        invariant (forall u :: u in users && u !in pending ==> !due[u]) ==> net.outbox == old(net.outbox)
        decreases pending
      {
        var u :| u in pending;
        SweepUser(u, net, now, was, due, pending);
        pending := pending - {u};
      }
    }

    /** The progress of a sweep that started from the offline flags `was`
        and the verdicts `due`: the users still `pending` are untouched, the
        others went offline iff they were due. */
    ghost predicate Swept(was: map<UserId, bool>, due: map<UserId, bool>, pending: set<UserId>, now: int)
      reads this, UserObjects()
    {
      && was.Keys == users.Keys && due.Keys == users.Keys && pending <= users.Keys
      && (forall u :: u in users ==> users[u].isOffline == (was[u] || (u !in pending && due[u])))
      && (forall u :: u in pending ==> users[u].OfflineDue(now) == due[u])
    }

    /** The loop body of StatusDeamonTick: OfflineDeamonCall on one pending
        user; it emits only when that user was due. */
    method SweepUser(u: UserId, net: Network, now: int,
                     ghost was: map<UserId, bool>, ghost due: map<UserId, bool>, ghost pending: set<UserId>)
      requires UsersValid() && u in pending && Swept(was, due, pending, now)
      modifies {users[u]}`isOffline, net
      ensures Swept(was, due, pending - {u}, now)
      ensures !due[u] ==> net.outbox == old(net.outbox)
    {
      var user := users[u];
      forall v | v in users && v != u ensures users[v] != user {
        assert users[v].userUID != user.userUID;
      }
      user.OfflineDeamonCall(net, now);
    }

    /** The guard of AddToChat, LeaveChat, SendMessage and SendFile: a valid
        session, then membership of the chat; a chat id naming no chat
        aborts the handler. */
    method ChatGuard(userKey: UserId, sessionKey: string, chatKey: ChatId) returns (gate: Gate)
      requires ChatsValid()
      ensures gate == Proceed <==> SessionOpen(userKey, sessionKey) && chatKey in chats && userKey in chats[chatKey].participants
      ensures gate == Abort <==> SessionOpen(userKey, sessionKey) && chatKey !in chats
    {
      var valid := IsValidSession(userKey, sessionKey);
      if !valid {
        return Refuse;
      }
      if chatKey !in chats {
        return Abort;
      }
      var keys := chats[chatKey].GetParticipantKeys();
      gate := if userKey in keys then Proceed else Refuse;
    }
  }

  /** The first user with a given id stays first as the list grows, and the
      next user is first for its id when that id is new. */
  lemma FirstIndexSnoc(us: seq<ChatUser>, i: nat)
    requires i < |us|
    ensures forall k :: k in IdsOf(us[..i]) ==> FirstIndex(us[..i + 1], k) == FirstIndex(us[..i], k)
    ensures us[i].userUID !in IdsOf(us[..i]) ==> FirstIndex(us[..i + 1], us[i].userUID) == i
  {
    assert us[..i + 1][..i] == us[..i];
  }
}
