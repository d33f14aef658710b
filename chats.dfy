/** A conversation: its participants keyed by user id, the participant
    counter, the sticky group flag, and the delivery of an event to everyone
    in the conversation. */
module Chats {
  import opened Presence
  import opened Wire
  import opened Users

  /** A user's membership in one chat. */
  class ChatParticipant {
    const user: ChatUser
    const chat: ChatInstance

    constructor (user: ChatUser, chat: ChatInstance)
      ensures this.user == user && this.chat == chat
    {
      this.user := user;
      this.chat := chat;
    }

    /** ReceiveMessage(kind, data, from): the copy counts as activity exactly
        when this participant's user id is the sender's. The contract is
        stated over `r`, the user's receiver snapshot, and `view`, the ping
        the sender's own copy causes; only the sender's user can change. */
    method ReceiveMessage(m: Message, from: ChatUser, net: Network, now: int, ghost r: Receiver, ghost view: PingView)
      requires r == user.AsReceiver()
      requires user.userUID == from.userUID ==> view == user.PingViewAt(now, user.isInactive, user.isOffline)
      modifies user.PingedIf(user.userUID == from.userUID)`lastChatPing,
               user.PingedIf(user.userUID == from.userUID)`lastCheckInactive,
               user.PingedIf(user.userUID == from.userUID)`isInactive,
               user.PingedIf(user.userUID == from.userUID)`isOffline, net
      ensures user.userUID == from.userUID && Accepts(r, from) ==> user.PingedAt(now)
      ensures !(user.userUID == from.userUID && Accepts(r, from)) ==> user.ActivityKept()
      ensures net.outbox == ChatDeliver(old(net.outbox), r, from, m, view)
    {
      user.ReceiveMessage(m, user.userUID == from.userUID, from, net, now);
    }
  }

  /** The loop of BroadcastToChat: the participants filed under `keys` get the
      event one after the other. `si` is the position of the sender's id in
      `keys` (|keys| when it is absent), `recipients` the participants'
      receiver snapshots and `view` the ping the sender's copy causes. */
  method RelayInOrder(parts: map<UserId, ChatParticipant>, keys: seq<UserId>, m: Message, from: ChatUser,
                      net: Network, now: int, ghost recipients: seq<Receiver>, ghost sender: ChatUser,
                      ghost si: nat, ghost view: PingView, ghost pinged: set<ChatUser>)
    requires |recipients| == |keys|
    requires forall j :: 0 <= j < |keys| ==>
               && keys[j] in parts && parts[keys[j]].user.userUID == keys[j]
               && recipients[j] == parts[keys[j]].user.AsReceiver()
    requires sender.userUID == from.userUID
    requires si <= |keys|
    requires forall j :: 0 <= j < |keys| ==> (keys[j] == from.userUID <==> j == si)
    requires si < |keys| ==> parts[keys[si]].user == sender
    requires pinged == if si < |keys| then {sender} else {}
    requires view == sender.PingViewAt(now, sender.isInactive, sender.isOffline)
    modifies pinged`lastChatPing, pinged`lastCheckInactive, pinged`isInactive, pinged`isOffline, net
    ensures net.outbox == ChatFanout(old(net.outbox), recipients, from, m, view)
    ensures si < |keys| && Accepts(old(sender.AsReceiver()), from) ==> sender.PingedAt(now)
    ensures !(si < |keys| && Accepts(old(sender.AsReceiver()), from)) ==> sender.ActivityKept()
  {
    for i := 0 to |keys|
      invariant si < i && Accepts(old(sender.AsReceiver()), from) ==>
                  sender.PingedAt(now)
      invariant !(si < i && Accepts(old(sender.AsReceiver()), from)) ==> sender.ActivityKept()
      invariant i <= si ==> view == sender.PingViewAt(now, sender.isInactive, sender.isOffline)
      invariant net.outbox == ChatFanout(old(net.outbox), recipients[..i], from, m, view)
    {
      var p := parts[keys[i]];
      ChatFanoutStep(old(net.outbox), recipients, i, from, m, view);
      p.ReceiveMessage(m, from, net, now, recipients[i], view);
    }
    assert recipients[..|keys|] == recipients;
  }

  /** The position of `uid` in a list of distinct ids, |keys| when absent. */
  lemma PositionOf(keys: seq<UserId>, uid: UserId) returns (si: nat)
    requires NoDuplicates(keys)
    ensures si <= |keys|
    ensures forall j :: 0 <= j < |keys| ==> (keys[j] == uid <==> j == si)
  {
    si := |keys|;
    if uid in keys {
      si :| 0 <= si < |keys| && keys[si] == uid;
    }
  }

  /** The users of a participant table, by id. */
  function RosterOf(ps: map<UserId, ChatParticipant>): map<UserId, ChatUser>
  {
    map k | k in ps :: ps[k].user
  }

  /** Filing one participant files its user. */
  lemma RosterOfUpdate(ps: map<UserId, ChatParticipant>, k: UserId, p: ChatParticipant)
    ensures RosterOf(ps[k := p]) == RosterOf(ps)[k := p.user]
  {
    var lhs, rhs := RosterOf(ps[k := p]), RosterOf(ps)[k := p.user];
    assert lhs.Keys == rhs.Keys;
    forall x | x in lhs ensures lhs[x] == rhs[x] {
    }
  }

  /** A roster after `user` asks to join: unchanged when its id is taken. */
  function Joined(roster: map<UserId, ChatUser>, user: ChatUser): map<UserId, ChatUser>
  {
    if user.userUID in roster then roster else roster[user.userUID := user]
  }

  class ChatInstance {
    const chatUID: ChatId
    var participants: map<UserId, ChatParticipant>
    /** The participant counter. */
    var n: int
    /** Raised once a third participant joins; never lowered. */
    var isGroupChat: bool

    /** The counter counts the participants, each filed under its own
        user's id and pointing back to this chat. */
    ghost predicate Filed()
      reads this
    {
      && n == |participants.Keys|
      && forall k :: k in participants ==> participants[k].user.userUID == k && participants[k].chat == this
    }

    /** The table is filed, and a chat of more than two is a group chat. */
    ghost predicate Valid()
      reads this
    {
      Filed() && (n > 2 ==> isGroupChat)
    }

    /** The participants' users by id. */
    ghost function Roster(): map<UserId, ChatUser>
      reads this
    {
      RosterOf(participants)
    }

    ghost function Members(): set<ChatUser>
      reads this
    {
      set k | k in participants :: participants[k].user
    }

    constructor (id: ChatId)
      ensures chatUID == id && participants == map[] && n == 0 && !isGroupChat
      ensures Valid()
    {
      chatUID := id;
      participants := map[];
      n := 0;
      isGroupChat := false;
    }

    /** AddParticipant: a user already present changes nothing; a new one is
        filed under its id, the counter goes up, and a third participant
        makes the chat a group chat for good. */
    method AddParticipant(user: ChatUser)
      requires Valid()
      modifies this`participants, this`n, this`isGroupChat
      ensures Valid()
      ensures user.userUID in old(participants) ==>
                participants == old(participants) && n == old(n) && isGroupChat == old(isGroupChat)
      ensures user.userUID !in old(participants) ==>
                && participants.Keys == old(participants.Keys) + {user.userUID}
                && fresh(participants[user.userUID]) && participants[user.userUID].user == user
                && (forall k :: k in old(participants) ==> participants[k] == old(participants[k]))
                && n == old(n) + 1
                && isGroupChat == (old(isGroupChat) || n > 2)
      ensures Roster() == Joined(old(Roster()), user)
    {
      if user.userUID in participants {
        return;
      }
      n := n + 1;
      var newParticipant := new ChatParticipant(user, this);
      RosterOfUpdate(participants, user.userUID, newParticipant);
      participants := participants[user.userUID := newParticipant];
      if n > 2 {
        isGroupChat := true;
      }
    }

    /** RemoveParticipant: an absent id changes nothing; a present one is
        dropped and the counter goes down. The group flag stays. */
    method RemoveParticipant(userId: UserId)
      requires Valid()
      modifies this`participants, this`n
      ensures Valid()
      ensures participants == old(participants) - {userId}
      ensures n == if userId in old(participants) then old(n) - 1 else old(n)
    {
      if userId !in participants {
        return;
      }
      n := n - 1;
      participants := participants - {userId};
    }

    /** GetParticipantKeys: every participant's user id, once each. */
    method GetParticipantKeys() returns (res: seq<UserId>)
      requires Filed()
      ensures Enumerates(res, participants.Keys)
      ensures |res| == n
    {
      res := [];
      var pending := participants.Keys;
      while pending != {}
        invariant pending <= participants.Keys
        invariant forall k :: k in res <==> k in participants.Keys - pending
        invariant NoDuplicates(res)
        invariant |res| + |pending| == |participants.Keys|
        decreases pending
      {
        var k :| k in pending;
        assert k !in res;
        res := res + [k];
        pending := pending - {k};
      }
    }

    /** The users a broadcast from `from` may ping: the participant filed
        under the sender's id, if there is one. */
    ghost function PingedBy(from: ChatUser): set<ChatUser>
      reads this
    {
      if from.userUID in participants then {participants[from.userUID].user} else {}
    }

    /** BroadcastToChat: every participant gets the event, in the enumeration
        order of the participant table (`order`, with `recipients` the
        participants' receiver snapshots in that order). Only the sender's
        own user, when it is a participant and takes the event, is pinged, at
        its turn; every other user keeps its state (the modifies clause). */
    method BroadcastToChat(m: Message, from: ChatUser, net: Network, now: int)
      returns (ghost order: seq<UserId>, ghost recipients: seq<Receiver>)
      requires Filed()
      modifies PingedBy(from)`lastChatPing, PingedBy(from)`lastCheckInactive,
               PingedBy(from)`isInactive, PingedBy(from)`isOffline, net
      ensures Enumerates(order, participants.Keys)
      ensures |recipients| == |order|
      ensures forall i :: 0 <= i < |order| ==> recipients[i] == old(participants[order[i]].user.AsReceiver())
      ensures from.userUID !in participants ==>
                net.outbox == DeliverAll(old(net.outbox), recipients, from, m)
      ensures from.userUID in participants ==>
                var sender := participants[from.userUID].user;
                net.outbox == ChatFanout(old(net.outbox), recipients, from, m,
                                         old(sender.PingViewAt(now, sender.isInactive, sender.isOffline)))
      ensures from.userUID in participants ==>
                var sender := participants[from.userUID].user;
                if old(Accepts(sender.AsReceiver(), from))
                then sender.PingedAt(now)
                else sender.ActivityKept()
    {
      ghost var present := from.userUID in participants;
      ghost var sender := if present then participants[from.userUID].user else from;
      ghost var view := sender.PingViewAt(now, sender.isInactive, sender.isOffline);
      var keys := GetParticipantKeys();
      order := keys;
      recipients := seq(|keys|, j requires 0 <= j < |keys| && keys[j] in participants reads this, Members() =>
                          participants[keys[j]].user.AsReceiver());
      ghost var si := PositionOf(keys, from.userUID);
      RelayInOrder(participants, keys, m, from, net, now, recipients, sender, si, view, PingedBy(from));
      if !present {
        ChatFanoutNoSender(old(net.outbox), recipients, from, m, view);
      }
    }
  }
}
