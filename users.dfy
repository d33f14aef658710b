/** ChatUser: the per-user presence state machine and the delivery of events to
    a user's sockets, to the user's contacts and to the user itself.

    The outboxes that a delivery produces are specified by pure functions over
    value snapshots of the users involved (Receiver, Subject, PingView): this
    keeps every promise about emitted events independent of the order in
    which the heap is updated between two broadcasts. */
module Users {
  import opened Presence
  import opened Wire

  // ---------------------------------------------------------------------------
  // Snapshots and the pure fan-out functions
  // ---------------------------------------------------------------------------

  /** What decides whether and where an event reaches a user: the guard of
      ReceiveMessage (disabled, block list) and the sockets it emits on. */
  datatype Receiver = Receiver(who: ChatUser, sockets: set<SocketId>, disabled: bool, blocked: seq<ChatUser?>)

  /** What decides the status a user shows to others: the inputs of GetStatus. */
  datatype Subject = Subject(who: ChatUser, blocked: seq<ChatUser?>, offline: bool, disabled: bool, inactive: bool, status: int)

  /** What a Ping broadcasts: the pinged user just after the ping, its
      contacts and itself as receivers, and which flags the ping cleared. */
  datatype PingView = PingView(subject: Subject, contacts: seq<Receiver>, self: Receiver, wasInactive: bool, wasOffline: bool)

  /** ReceiveMessage drops an event when the receiver is disabled or has
      blocked the sender. A sender is `null` where the caller passes none
      (the OpenChat answer); it is blocked when an unknown user id was once
      blocked, since BlockUser then stored `undefined`. */
  predicate Accepts(r: Receiver, from: ChatUser?)
  {
    !r.disabled && from !in r.blocked
  }

  /** ReceiveMessage(kind, data, false, from): the event on every socket of an
      accepting receiver, nothing otherwise. */
  function DeliverTo(out: Outbox, r: Receiver, from: ChatUser?, m: Message): Outbox
  {
    if Accepts(r, from) then Emit(out, r.sockets, m) else out
  }

  /** The same event delivered to each receiver in turn (BroadcastToContacts). */
  function DeliverAll(out: Outbox, rs: seq<Receiver>, from: ChatUser?, m: Message): Outbox
  {
    if rs == [] then out
    else DeliverTo(DeliverAll(out, rs[..|rs| - 1], from, m), rs[|rs| - 1], from, m)
  }

  /** The status `viewer` sees of the subject. */
  function SeenBy(s: Subject, viewer: ChatUser): int
  {
    EffectiveStatus(viewer in s.blocked, s.offline, s.disabled, s.inactive, s.status)
  }

  /** The NewStatus event addressed to `viewer`. */
  function StatusMessage(s: Subject, viewer: ChatUser): Message
  {
    Message("NewStatus", StatusUpdate(s.who.userUID, SeenBy(s, viewer)))
  }

  /** The first half of BroadcastStatus: each contact in turn gets the status
      that contact sees. */
  function ContactsStatus(out: Outbox, s: Subject, cs: seq<Receiver>): Outbox
  {
    if cs == [] then out
    else
      var c := cs[|cs| - 1];
      DeliverTo(ContactsStatus(out, s, cs[..|cs| - 1]), c, s.who, StatusMessage(s, c.who))
  }

  /** BroadcastStatus: the contacts, then the subject's own sockets with the
      status the subject sees of itself. */
  function StatusFanout(out: Outbox, s: Subject, cs: seq<Receiver>, self: Receiver): Outbox
  {
    DeliverTo(ContactsStatus(out, s, cs), self, s.who, StatusMessage(s, self.who))
  }

  /** Ping: one broadcast when it clears the inactive flag (the user is still
      offline at that moment if it was), one more when it clears the offline
      flag. */
  function PingFanout(out: Outbox, p: PingView): Outbox
  {
    var afterInactive :=
      if p.wasInactive then StatusFanout(out, p.subject.(offline := p.wasOffline), p.contacts, p.self) else out;
    if p.wasOffline then StatusFanout(afterInactive, p.subject.(offline := false), p.contacts, p.self)
    else afterInactive
  }

  /** ChatParticipant.ReceiveMessage: the event to one participant; the
      participant whose user id is the sender's counts it as activity, which
      pings that user as described by `p`. */
  function ChatDeliver(out: Outbox, r: Receiver, from: ChatUser, m: Message, p: PingView): Outbox
  {
    var delivered := DeliverTo(out, r, from, m);
    if r.who.userUID == from.userUID && Accepts(r, from) then PingFanout(delivered, p) else delivered
  }

  /** ChatInstance.BroadcastToChat over participants visited in the order of `rs`. */
  function ChatFanout(out: Outbox, rs: seq<Receiver>, from: ChatUser, m: Message, p: PingView): Outbox
  {
    if rs == [] then out
    else ChatDeliver(ChatFanout(out, rs[..|rs| - 1], from, m, p), rs[|rs| - 1], from, m, p)
  }

  /** The receiver snapshots of a list of users, in order. */
  ghost function Receivers(cs: seq<ChatUser>): (rs: seq<Receiver>)
    reads (set c | c in cs)`activeSockets, (set c | c in cs)`isDisabled, (set c | c in cs)`blocked
    ensures |rs| == |cs|
  {
    if cs == [] then [] else Receivers(cs[..|cs| - 1]) + [cs[|cs| - 1].AsReceiver()]
  }

  lemma {:induction false} ReceiversAt(cs: seq<ChatUser>, i: int)
    requires 0 <= i < |cs|
    ensures Receivers(cs)[i] == cs[i].AsReceiver()
  {
    if i < |cs| - 1 {
      ReceiversAt(cs[..|cs| - 1], i);
    }
  }

  /** `t` added to a block list unless already there (BlockUser). */
  function WithBlocked(bs: seq<ChatUser?>, t: ChatUser?): seq<ChatUser?>
  {
    if t in bs then bs else bs + [t]
  }

  /** The first occurrence of `t` taken out (UnbockUser's splice). */
  function WithoutFirst(bs: seq<ChatUser?>, t: ChatUser?): seq<ChatUser?>
  {
    if bs == [] then []
    else if bs[0] == t then bs[1..]
    else [bs[0]] + WithoutFirst(bs[1..], t)
  }

  /** The splice UnbockUser performs at the first index holding `t` is
      WithoutFirst. */
  lemma {:induction false} WithoutFirstAt(bs: seq<ChatUser?>, t: ChatUser?, i: int)
    requires 0 <= i < |bs| && bs[i] == t && t !in bs[..i]
    ensures WithoutFirst(bs, t) == bs[..i] + bs[i + 1..]
  {
    if i > 0 {
      assert bs[0] != t by { assert bs[0] == bs[..i][0]; }
      assert bs[1..][..i - 1] == bs[1..i];
      assert t !in bs[1..][..i - 1];
      WithoutFirstAt(bs[1..], t, i - 1);
      assert bs[1..][i..] == bs[i + 1..];
      assert [bs[0]] + bs[1..i] == bs[..i];
    }
  }

  /** Unblocking a user that is not blocked changes nothing. */
  lemma {:induction false} WithoutFirstAbsent(bs: seq<ChatUser?>, t: ChatUser?)
    requires t !in bs
    ensures WithoutFirst(bs, t) == bs
  {
    if bs != [] {
      WithoutFirstAbsent(bs[1..], t);
    }
  }

  /** Blocking an already blocked user changes nothing. */
  lemma BlockIdempotent(bs: seq<ChatUser?>, t: ChatUser?)
    ensures WithBlocked(WithBlocked(bs, t), t) == WithBlocked(bs, t)
    ensures t in WithBlocked(bs, t)
  {
  }

  /** Unblocking twice is unblocking once, on a block list that holds each
      user at most once (BlockListValid). */
  lemma UnblockIdempotent(bs: seq<ChatUser?>, t: ChatUser?)
    requires NoDuplicates(bs)
    ensures WithoutFirst(WithoutFirst(bs, t), t) == WithoutFirst(bs, t)
  {
    NoDuplicatesKept(bs, t);
    WithoutFirstContents(WithoutFirst(bs, t), t);
  }

  /** Unblocking right after blocking a user who was not blocked restores
      the block list. */
  lemma {:induction false} UnblockUndoesBlock(bs: seq<ChatUser?>, t: ChatUser?)
    requires t !in bs
    ensures WithoutFirst(WithBlocked(bs, t), t) == bs
  {
    if bs != [] {
      assert (bs + [t])[1..] == bs[1..] + [t];
      UnblockUndoesBlock(bs[1..], t);
    }
  }

  /** WithoutFirst removes one occurrence and keeps every other entry. */
  lemma {:induction false} WithoutFirstContents(bs: seq<ChatUser?>, t: ChatUser?)
    ensures t in bs ==> |WithoutFirst(bs, t)| == |bs| - 1
    ensures t !in bs ==> WithoutFirst(bs, t) == bs
    ensures multiset(WithoutFirst(bs, t)) == multiset(bs) - multiset{t}
  {
    if bs != [] {
      WithoutFirstContents(bs[1..], t);
      assert bs == [bs[0]] + bs[1..];
    }
  }

  /** A block list built by BlockUser and UnbockUser holds each user at most
      once, and then an unblocked user is no longer blocked. */
  lemma NoDuplicatesKept(bs: seq<ChatUser?>, t: ChatUser?)
    requires NoDuplicates(bs)
    ensures NoDuplicates(WithBlocked(bs, t))
    ensures NoDuplicates(WithoutFirst(bs, t))
    ensures t !in WithoutFirst(bs, t)
  {
    WithoutFirstContents(bs, t);
    NoDuplicatesCount(bs);
    NoDuplicatesCount(WithoutFirst(bs, t));
    var ws := WithBlocked(bs, t);
    if t !in bs {
      forall i, j | 0 <= i < j < |ws| ensures ws[i] != ws[j] {
        if j == |bs| { assert ws[i] == bs[i]; assert bs[i] in bs; }
      }
    }
  }

  /** A list is free of duplicates exactly when each entry occurs once. */
  lemma {:induction false} NoDuplicatesCount(bs: seq<ChatUser?>)
    ensures NoDuplicates(bs) <==> forall x :: x in bs ==> multiset(bs)[x] == 1
  {
    if bs != [] {
      NoDuplicatesCount(bs[1..]);
      assert bs == [bs[0]] + bs[1..];
      if NoDuplicates(bs) {
        assert NoDuplicates(bs[1..]) by {
          forall i, j | 0 <= i < j < |bs[1..]| ensures bs[1..][i] != bs[1..][j] {
            assert bs[1..][i] == bs[i + 1] && bs[1..][j] == bs[j + 1];
          }
        }
        assert bs[0] !in bs[1..] by {
          forall k | 0 <= k < |bs[1..]| ensures bs[1..][k] != bs[0] {
            assert bs[1..][k] == bs[k + 1];
          }
        }
      }
      if forall x :: x in bs ==> multiset(bs)[x] == 1 {
        assert bs[0] !in bs[1..] by {
          assert multiset(bs)[bs[0]] == 1 + multiset(bs[1..])[bs[0]];
        }
        assert forall x :: x in bs[1..] ==> multiset(bs[1..])[x] == 1 by {
          forall x | x in bs[1..] ensures multiset(bs[1..])[x] == 1 {
            assert x in bs;
            assert multiset(bs)[x] == multiset([bs[0]])[x] + multiset(bs[1..])[x];
          }
        }
        forall i, j | 0 <= i < j < |bs| ensures bs[i] != bs[j] {
          if i == 0 {
            assert bs[j] == bs[1..][j - 1];
          } else {
            assert bs[i] == bs[1..][i - 1] && bs[j] == bs[1..][j - 1];
          }
        }
      }
    }
  }

  // ---------------------------------------------------------------------------
  // What a fan-out leaves on one socket
  // ---------------------------------------------------------------------------

  /** How many receivers in `rs` accept an event from `from` and own socket `s`. */
  function Owners(rs: seq<Receiver>, from: ChatUser?, s: SocketId): nat
  {
    if rs == [] then 0
    else
      var r := rs[|rs| - 1];
      Owners(rs[..|rs| - 1], from, s) + if Accepts(r, from) && s in r.sockets then 1 else 0
  }

  /** The same event delivered to a list of receivers lands on a socket once
      per accepting receiver that owns it, and nowhere else. */
  lemma {:induction false} SentDeliverAll(out: Outbox, rs: seq<Receiver>, from: ChatUser?, m: Message, s: SocketId)
    ensures Sent(DeliverAll(out, rs, from, m), s) == Sent(out, s) + seq(Owners(rs, from, s), _ => m)
  {
    if rs != [] {
      var front := rs[..|rs| - 1];
      var k := Owners(front, from, s);
      SentDeliverAll(out, front, from, m, s);
      SentAfterEmit(DeliverAll(out, front, from, m), rs[|rs| - 1].sockets, m, s);
      assert seq(k, _ => m) + [m] == seq(k + 1, _ => m);
    }
  }

  /** The NewStatus events a status broadcast to `cs` leaves on socket
      `sock`, in the order the receivers are visited. */
  function StatusReceipts(s: Subject, cs: seq<Receiver>, sock: SocketId): seq<Message>
  {
    if cs == [] then []
    else
      var c := cs[|cs| - 1];
      StatusReceipts(s, cs[..|cs| - 1], sock) +
        if Accepts(c, s.who) && sock in c.sockets then [StatusMessage(s, c.who)] else []
  }

  lemma {:induction false} SentContactsStatus(out: Outbox, s: Subject, cs: seq<Receiver>, sock: SocketId)
    ensures Sent(ContactsStatus(out, s, cs), sock) == Sent(out, sock) + StatusReceipts(s, cs, sock)
  {
    if cs != [] {
      var c := cs[|cs| - 1];
      SentContactsStatus(out, s, cs[..|cs| - 1], sock);
      SentAfterEmit(ContactsStatus(out, s, cs[..|cs| - 1]), c.sockets, StatusMessage(s, c.who), sock);
    }
  }

  /** A broadcast tells every receiver the subject's status as that receiver
      sees it: a receiver the subject blocked is told OFFLINE, whatever the
      subject's own state. */
  lemma {:induction false} StatusReceiptsBlocked(s: Subject, cs: seq<Receiver>, sock: SocketId)
    requires forall c :: c in cs && sock in c.sockets ==> c.who in s.blocked
    ensures forall msg :: msg in StatusReceipts(s, cs, sock) ==>
              msg == Message("NewStatus", StatusUpdate(s.who.userUID, StatusId(Offline)))
  {
    if cs != [] {
      StatusReceiptsBlocked(s, cs[..|cs| - 1], sock);
    }
  }

  /** A socket no contact owns sees only the subject's own copy of a status
      broadcast: one event when the subject accepts its own broadcast. */
  lemma OwnSocketStatus(out: Outbox, s: Subject, cs: seq<Receiver>, self: Receiver, sock: SocketId)
    requires forall c :: c in cs ==> sock !in c.sockets
    requires sock in self.sockets && Accepts(self, s.who)
    ensures Sent(StatusFanout(out, s, cs, self), sock) == Sent(out, sock) + [StatusMessage(s, self.who)]
  {
    SentContactsStatus(out, s, cs, sock);
    NoReceipts(s, cs, sock);
    SentAfterEmit(ContactsStatus(out, s, cs), self.sockets, StatusMessage(s, self.who), sock);
  }

  lemma {:induction false} NoReceipts(s: Subject, cs: seq<Receiver>, sock: SocketId)
    requires forall c :: c in cs ==> sock !in c.sockets
    ensures StatusReceipts(s, cs, sock) == []
  {
    if cs != [] {
      NoReceipts(s, cs[..|cs| - 1], sock);
    }
  }

  /** Ping broadcasts once per flag it clears: on a socket of the pinged user
      that no contact owns, the user sees first the status it had with only
      the inactive flag cleared, then the status with both cleared; a ping
      that clears nothing emits nothing at all. */
  lemma PingOwnSocket(out: Outbox, p: PingView, sock: SocketId)
    requires forall c :: c in p.contacts ==> sock !in c.sockets
    requires sock in p.self.sockets && Accepts(p.self, p.subject.who)
    ensures Sent(PingFanout(out, p), sock) ==
              Sent(out, sock)
              + (if p.wasInactive then [StatusMessage(p.subject.(offline := p.wasOffline), p.self.who)] else [])
              + (if p.wasOffline then [StatusMessage(p.subject.(offline := false), p.self.who)] else [])
    ensures !p.wasInactive && !p.wasOffline ==> PingFanout(out, p) == out
  {
    var mid := if p.wasInactive then StatusFanout(out, p.subject.(offline := p.wasOffline), p.contacts, p.self) else out;
    if p.wasInactive {
      OwnSocketStatus(out, p.subject.(offline := p.wasOffline), p.contacts, p.self, sock);
    }
    if p.wasOffline {
      OwnSocketStatus(mid, p.subject.(offline := false), p.contacts, p.self, sock);
    }
  }

  /** With no receiver carrying the sender's user id, a chat broadcast is a
      plain delivery to every participant: nobody is pinged. */
  lemma {:induction false} ChatFanoutNoSender(out: Outbox, rs: seq<Receiver>, from: ChatUser, m: Message, p: PingView)
    requires forall i :: 0 <= i < |rs| ==> rs[i].who.userUID != from.userUID
    ensures ChatFanout(out, rs, from, m, p) == DeliverAll(out, rs, from, m)
  {
    if rs != [] {
      ChatFanoutNoSender(out, rs[..|rs| - 1], from, m, p);
    }
  }

  /** A chat broadcast over one more receiver is the broadcast over the
      first ones followed by the delivery to that receiver. */
  lemma ChatFanoutStep(out: Outbox, rs: seq<Receiver>, i: nat, from: ChatUser, m: Message, p: PingView)
    requires i < |rs|
    ensures ChatFanout(out, rs[..i + 1], from, m, p) == ChatDeliver(ChatFanout(out, rs[..i], from, m, p), rs[i], from, m, p)
  {
    assert rs[..i + 1][..i] == rs[..i];
  }

  // ---------------------------------------------------------------------------
  // The user object
  // ---------------------------------------------------------------------------

  class ChatUser {
    const userUID: UserId
    var name: string
    var pictureHash: string
    /** Ids of the live sockets (one per browser tab). */
    var activeSockets: set<SocketId>
    var isOffline: bool
    var isInactive: bool
    /** Time (ms) of the last recorded activity. */
    var lastChatPing: int
    /** Time (ms) of the last client idle check. */
    var lastCheckInactive: int
    /** The status id the client last set: ONLINE, AWAY, BUSY, OFFLINE or
        any other id, stored unchecked. */
    var status: int
    var isDisabled: bool
    /** `null` stands for the `undefined` that blocking an unknown user id stores. */
    var blocked: seq<ChatUser?>
    /** Users that receive this user's presence. */
    var contacts: seq<ChatUser>
    /** The offline debounce timer: armed or not, and when it is due. */
    var timerPending: bool
    var timerDue: int

    /** A new user starts offline, ONLINE as raw status, active, with no
        sockets, blocks or contacts; `now` stands for the clock reading. */
    constructor (userUID: UserId, name: string, isDisabled: bool, pictureHash: string, now: int)
      ensures this.userUID == userUID && this.name == name && this.pictureHash == pictureHash
      ensures this.isDisabled == isDisabled
      ensures activeSockets == {} && isOffline && !isInactive && status == StatusId(Online)
      ensures lastChatPing == now && lastCheckInactive == now
      ensures blocked == [] && contacts == [] && !timerPending
      ensures BlockListValid()
    {
      this.userUID := userUID;
      this.name := name;
      this.activeSockets := {};
      this.isOffline := true;
      this.isInactive := false;
      this.lastChatPing := now;
      this.lastCheckInactive := now;
      this.status := StatusId(Online);
      this.isDisabled := isDisabled;
      this.blocked := [];
      this.contacts := [];
      this.pictureHash := pictureHash;
      this.timerPending := false;
      this.timerDue := 0;
    }

    ghost function AsReceiver(): Receiver
      reads this`activeSockets, this`isDisabled, this`blocked
    {
      Receiver(this, activeSockets, isDisabled, blocked)
    }

    ghost function AsSubject(now: int): Subject
      reads this`blocked, this`isOffline, this`isDisabled, this`lastChatPing, this`status
    {
      Subject(this, blocked, isOffline, isDisabled, IsInactive(lastChatPing, now), status)
    }

    ghost function ContactReceivers(): seq<Receiver>
      reads this`contacts, (set c | c in contacts)`activeSockets, (set c | c in contacts)`isDisabled,
            (set c | c in contacts)`blocked
    {
      Receivers(contacts)
    }

    /** What a ping at `now` that cleared the given flags broadcasts: the
        user as it is once the ping is over (neither offline nor inactive),
        its contacts and itself as receivers. It reads none of the fields a
        ping changes, so it is the same before and after one. */
    ghost function PingViewAt(now: int, wasInactive: bool, wasOffline: bool): PingView
      reads this`blocked, this`isDisabled, this`status, this`activeSockets,
            this`contacts, (set c | c in contacts)`activeSockets, (set c | c in contacts)`isDisabled,
            (set c | c in contacts)`blocked
    {
      PingView(Subject(this, blocked, false, isDisabled, false, status), ContactReceivers(), AsReceiver(),
               wasInactive, wasOffline)
    }

    /** The state a ping at `now` leaves: both stamps at `now`, neither
        inactive nor offline. */
    predicate PingedAt(now: int)
      reads this`lastChatPing, this`lastCheckInactive, this`isInactive, this`isOffline
    {
      lastChatPing == now && lastCheckInactive == now && !isInactive && !isOffline
    }

    /** The activity fields that Ping, CheckIdle and the offline paths change. */
    twostate predicate ActivityKept()
      reads this
    {
      && lastChatPing == old(lastChatPing) && lastCheckInactive == old(lastCheckInactive)
      && isInactive == old(isInactive) && isOffline == old(isOffline)
    }

    /** The block list holds each entry at most once, as BlockUser and
        UnbockUser keep it. */
    ghost predicate BlockListValid()
      reads this`blocked
    {
      NoDuplicates(blocked)
    }

    /** CountSockets: the live sockets, counted one by one. */
    method CountSockets() returns (count: nat)
      ensures count == |activeSockets|
      ensures count == 0 <==> activeSockets == {}
    {
      count := 0;
      var pending := activeSockets;
      while pending != {}
        invariant pending <= activeSockets
        invariant count + |pending| == |activeSockets|
        decreases pending
      {
        var s :| s in pending;
        pending := pending - {s};
        count := count + 1;
      }
    }

    /** GetStatus(whoWantsToKnow), at time `now`: a viewer this user blocked,
        and every viewer while this user is offline or disabled, sees OFFLINE;
        an active user shows its raw status id; an idle one shows AWAY in
        place of ONLINE. The answer is the raw id or a named status. */
    function GetStatus(viewer: ChatUser, now: int): (s: int)
      reads this
      ensures viewer in blocked || isOffline || isDisabled ==> s == StatusId(Offline)
      ensures viewer !in blocked && !isOffline && !isDisabled && !IsInactive(lastChatPing, now) ==> s == status
      ensures viewer !in blocked && !isOffline && !isDisabled && IsInactive(lastChatPing, now) ==>
                s == (if status == StatusId(Online) then StatusId(Away) else status)
      ensures s == status || StatusOfId(s).Some?
    {
      EffectiveStatus(viewer in blocked, isOffline, isDisabled, IsInactive(lastChatPing, now), status)
    }

    /** IsBlocked: a linear search of the block list by object identity. */
    method IsBlocked(target: ChatUser?) returns (b: bool)
      ensures b <==> target in blocked
    {
      var i := 0;
      while i < |blocked|
        invariant 0 <= i <= |blocked|
        invariant target !in blocked[..i]
      {
        if blocked[i] == target {
          return true;
        }
        assert blocked[..i + 1] == blocked[..i] + [blocked[i]];
        i := i + 1;
      }
      assert blocked[..i] == blocked;
      return false;
    }

    /** The emit loop of ReceiveMessage: `m` once on every active socket. */
    method EmitToSockets(m: Message, net: Network)
      modifies net
      ensures net.outbox == Emit(old(net.outbox), activeSockets, m)
    {
      var pending := activeSockets;
      while pending != {}
        invariant pending <= activeSockets
        invariant net.outbox == Emit(old(net.outbox), activeSockets - pending, m)
        decreases pending
      {
        var s :| s in pending;
        EmitOneMore(old(net.outbox), activeSockets - pending, s, m);
        net.Send(s, m);
        assert activeSockets - (pending - {s}) == (activeSockets - pending) + {s};
        pending := pending - {s};
      }
    }

    /** ReceiveMessage(kind, data, false, from): the delivery every fan-out
        loop performs; it changes nothing but the outboxes. */
    method Notify(m: Message, from: ChatUser?, net: Network)
      modifies net
      ensures net.outbox == DeliverTo(old(net.outbox), AsReceiver(), from, m)
    {
      var blocks := IsBlocked(from);
      if isDisabled || blocks {
        return;
      }
      EmitToSockets(m, net);
    }

    /** BroadcastStatus: every contact, then the user itself, gets the status
        it sees of this user. */
    method BroadcastStatus(net: Network, now: int)
      modifies net
      ensures net.outbox == StatusFanout(old(net.outbox), AsSubject(now), ContactReceivers(), AsReceiver())
    {
      StatusToContacts(net, now);
      var own := GetStatus(this, now);
      Notify(Message("NewStatus", StatusUpdate(userUID, own)), this, net);
    }

    /** The loop of BroadcastStatus over the contacts. */
    method StatusToContacts(net: Network, now: int)
      modifies net
      ensures net.outbox == ContactsStatus(old(net.outbox), AsSubject(now), ContactReceivers())
    {
      ghost var subject := AsSubject(now);
      ghost var rs := Receivers(contacts);
      var i := 0;
      while i < |contacts|
        invariant 0 <= i <= |contacts|
        invariant net.outbox == ContactsStatus(old(net.outbox), subject, rs[..i])
      {
        var c := contacts[i];
        ReceiversAt(contacts, i);
        var seen := GetStatus(c, now);
        assert StatusMessage(subject, rs[i].who) == Message("NewStatus", StatusUpdate(userUID, seen));
        c.Notify(Message("NewStatus", StatusUpdate(userUID, seen)), this, net);
        assert rs[..i + 1][..i] == rs[..i];
        i := i + 1;
      }
      assert rs[..i] == rs;
    }

    /** Ping: records activity at `now`; clearing the inactive flag and the
        offline flag each broadcasts the status once. */
    method Ping(net: Network, now: int)
      modifies this`lastChatPing, this`lastCheckInactive, this`isInactive, this`isOffline, net
      ensures PingedAt(now)
      ensures net.outbox == PingFanout(old(net.outbox), PingViewAt(now, old(isInactive), old(isOffline)))
    {
      lastChatPing := now;
      lastCheckInactive := now;
      ghost var wasOffline := isOffline;
      ClearInactive(net, now);
      ghost var subject, receivers, self := AsSubject(now), ContactReceivers(), AsReceiver();
      ClearOffline(net, now);
      assert subject == AsSubject(now).(offline := wasOffline);
      assert receivers == ContactReceivers() && self == AsReceiver();
    }

    /** The first half of Ping: an inactive user becomes active, with a broadcast. */
    method ClearInactive(net: Network, now: int)
      modifies this`isInactive, net
      ensures !isInactive
      ensures net.outbox == if old(isInactive) then StatusFanout(old(net.outbox), AsSubject(now), ContactReceivers(), AsReceiver())
                            else old(net.outbox)
    {
      if isInactive {
        isInactive := false;
        BroadcastStatus(net, now);
      }
    }

    /** The second half of Ping: an offline user comes back, with a broadcast. */
    method ClearOffline(net: Network, now: int)
      modifies this`isOffline, net
      ensures !isOffline
      ensures net.outbox == if old(isOffline) then StatusFanout(old(net.outbox), AsSubject(now), ContactReceivers(), AsReceiver())
                            else old(net.outbox)
    {
      if isOffline {
        isOffline := false;
        BroadcastStatus(net, now);
      }
    }

    /** OfflineDeamonCall's condition: not yet offline, inactive, and more
        than five minutes since the last client idle check. */
    predicate OfflineDue(now: int)
      reads this
    {
      !isOffline && IsInactive(lastChatPing, now) && now - lastCheckInactive > SweepGate
    }

    /** After a ping at `t` the user counts as inactive exactly once more than
        two minutes have passed; until then every viewer it has not blocked
        sees its raw status, unless it is disabled. */
    lemma ActiveAfterPing(t: int, now: int, viewer: ChatUser)
      requires PingedAt(t)
      ensures IsInactive(lastChatPing, now) <==> now - t > InactivityThreshold
      ensures now - t <= InactivityThreshold && !isDisabled && viewer !in blocked ==> GetStatus(viewer, now) == status
    {
    }

    /** The daemon finds a user pinged at `t` due exactly once more than five
        minutes have passed without activity or idle check. */
    lemma DueAfterPing(t: int, now: int)
      requires PingedAt(t)
      ensures OfflineDue(now) <==> now - t > SweepGate
    {
    }

    /** ReceiveMessage(kind, data, activity, from): nothing at all when this
        user is disabled or has blocked the sender; otherwise the event on every
        active socket, then a Ping when the event counts as activity. */
    method ReceiveMessage(m: Message, activity: bool, from: ChatUser?, net: Network, now: int)
      modifies PingedIf(activity)`lastChatPing, PingedIf(activity)`lastCheckInactive,
               PingedIf(activity)`isInactive, PingedIf(activity)`isOffline, net
      ensures activity && Accepts(AsReceiver(), from) ==>
                PingedAt(now)
      ensures !(activity && Accepts(AsReceiver(), from)) ==> ActivityKept()
      ensures net.outbox ==
                var delivered := DeliverTo(old(net.outbox), AsReceiver(), from, m);
                if activity && Accepts(AsReceiver(), from)
                then PingFanout(delivered, PingViewAt(now, old(isInactive), old(isOffline)))
                else delivered
    {
      var blocks := IsBlocked(from);
      if isDisabled || blocks {
        return;
      }
      EmitToSockets(m, net);
      if activity {
        Ping(net, now);
      }
    }

    /** The users an event may ping: this one when it counts as activity. */
    ghost function PingedIf(activity: bool): set<ChatUser>
    {
      if activity then {this} else {}
    }

    /** ReceiveMessageInSocket: the same guard, the event on one given socket. */
    method ReceiveMessageInSocket(socket: SocketId, m: Message, activity: bool, from: ChatUser?, net: Network, now: int)
      modifies this`lastChatPing, this`lastCheckInactive, this`isInactive, this`isOffline, net
      ensures activity && Accepts(AsReceiver(), from) ==>
                PingedAt(now)
      ensures !(activity && Accepts(AsReceiver(), from)) ==> ActivityKept()
      ensures net.outbox ==
                var delivered := if Accepts(AsReceiver(), from)
                                 then old(net.outbox)[socket := Sent(old(net.outbox), socket) + [m]]
                                 else old(net.outbox);
                if activity && Accepts(AsReceiver(), from)
                then PingFanout(delivered, PingViewAt(now, old(isInactive), old(isOffline)))
                else delivered
    {
      var blocks := IsBlocked(from);
      if isDisabled || blocks {
        return;
      }
      net.Send(socket, m);
      if activity {
        Ping(net, now);
      }
    }

    /** AddSocket: registers the socket and pings. The ping clears isOffline,
        so the source's reconnection branch, which would force ONLINE and
        broadcast, is never taken: the raw status is left as it was. */
    method AddSocket(id: SocketId, net: Network, now: int)
      modifies this`activeSockets, this`lastChatPing, this`lastCheckInactive, this`isInactive, this`isOffline, net
      ensures activeSockets == old(activeSockets) + {id}
      ensures PingedAt(now)
      ensures net.outbox == PingFanout(old(net.outbox), PingViewAt(now, old(isInactive), old(isOffline)))
    {
      activeSockets := activeSockets + {id};
      Ping(net, now);
      assert !isOffline;
      isOffline := false;
    }

    /** RemoveSocket: forgets the socket and cancels the pending timer; when
        no socket is left, arms a new one due OfflineGrace ms later. */
    method RemoveSocket(id: SocketId, now: int)
      modifies this`activeSockets, this`timerPending, this`timerDue
      ensures activeSockets == old(activeSockets) - {id}
      ensures timerPending <==> activeSockets == {}
      ensures timerPending ==> timerDue == now + OfflineGrace
      ensures !timerPending ==> timerDue == old(timerDue)
    {
      activeSockets := activeSockets - {id};
      timerPending := false;
      var count := CountSockets();
      if count == 0 {
        timerPending := true;
        timerDue := now + OfflineGrace;
      }
    }

    /** The debounce timer's callback, run by the scheduler at `now`: a timer
        that is armed and due fires once; it marks the user offline and
        broadcasts only if no socket was added since. */
    method FireOfflineTimer(net: Network, now: int) returns (fired: bool)
      modifies this`timerPending, this`isOffline, net
      ensures fired == (old(timerPending) && now >= old(timerDue))
      ensures timerPending == (old(timerPending) && !fired)
      ensures isOffline == (old(isOffline) || (fired && activeSockets == {}))
      ensures net.outbox == if fired && activeSockets == {}
                            then StatusFanout(old(net.outbox), AsSubject(now), ContactReceivers(), AsReceiver())
                            else old(net.outbox)
    {
      fired := timerPending && now >= timerDue;
      if !fired {
        return;
      }
      timerPending := false;
      var count := CountSockets();
      if count == 0 {
        isOffline := true;
        BroadcastStatus(net, now);
      }
    }

    /** SetStatus: the new raw status, a ping, then a broadcast. */
    method SetStatus(s: int, net: Network, now: int)
      modifies this`status, this`lastChatPing, this`lastCheckInactive, this`isInactive, this`isOffline, net
      ensures status == s
      ensures PingedAt(now)
      ensures net.outbox ==
                StatusFanout(PingFanout(old(net.outbox), PingViewAt(now, old(isInactive), old(isOffline))),
                             AsSubject(now), ContactReceivers(), AsReceiver())
    {
      status := s;
      Ping(net, now);
      BroadcastStatus(net, now);
    }

    /** CheckIdle: the first check that finds the user inactive broadcasts
        and raises the inactive flag; every check records its time. */
    method CheckIdle(net: Network, now: int)
      modifies this`isInactive, this`lastCheckInactive, net
      ensures lastCheckInactive == now
      ensures isInactive == (old(isInactive) || IsInactive(lastChatPing, now))
      ensures net.outbox == if IsInactive(lastChatPing, now) && !old(isInactive)
                            then StatusFanout(old(net.outbox), AsSubject(now), ContactReceivers(), AsReceiver())
                            else old(net.outbox)
    {
      if IsInactive(lastChatPing, now) && !isInactive {
        BroadcastStatus(net, now);
        isInactive := true;
      }
      lastCheckInactive := now;
    }

    /** OfflineDeamonCall: a user whose state makes OfflineDue hold is marked
        offline, with a broadcast; any other user is left alone. */
    method OfflineDeamonCall(net: Network, now: int)
      modifies this`isOffline, net
      ensures isOffline == (old(isOffline) || old(OfflineDue(now)))
      ensures net.outbox == if old(OfflineDue(now))
                            then StatusFanout(old(net.outbox), AsSubject(now), ContactReceivers(), AsReceiver())
                            else old(net.outbox)
    {
      if OfflineDue(now) {
        isOffline := true;
        BroadcastStatus(net, now);
      }
    }

    /** Disable: the user is hidden from everyone, with a broadcast. */
    method Disable(net: Network, now: int)
      modifies this`isDisabled, net
      ensures isDisabled
      ensures net.outbox == StatusFanout(old(net.outbox), AsSubject(now), ContactReceivers(), AsReceiver())
    {
      isDisabled := true;
      BroadcastStatus(net, now);
    }

    /** Enable: the user is visible again, with a broadcast. */
    method Enable(net: Network, now: int)
      modifies this`isDisabled, net
      ensures !isDisabled
      ensures net.outbox == StatusFanout(old(net.outbox), AsSubject(now), ContactReceivers(), AsReceiver())
    {
      isDisabled := false;
      BroadcastStatus(net, now);
    }

    /** BlockUser: `target` joins the block list unless already on it; only an
        actual change broadcasts. */
    method BlockUser(target: ChatUser?, net: Network, now: int)
      modifies this`blocked, net
      ensures blocked == WithBlocked(old(blocked), target)
      ensures old(BlockListValid()) ==> BlockListValid()
      ensures net.outbox == if target in old(blocked) then old(net.outbox)
                            else StatusFanout(old(net.outbox), AsSubject(now), ContactReceivers(), AsReceiver())
    {
      var i := 0;
      while i < |blocked|
        invariant 0 <= i <= |blocked|
        invariant target !in blocked[..i]
      {
        if blocked[i] == target {
          return;
        }
        assert blocked[..i + 1] == blocked[..i] + [blocked[i]];
        i := i + 1;
      }
      assert blocked[..i] == blocked;
      if BlockListValid() {
        NoDuplicatesKept(blocked, target);
      }
      blocked := blocked + [target];
      BroadcastStatus(net, now);
    }

    /** UnbockUser: the first occurrence of `target` leaves the block list; only
        an actual change broadcasts. */
    method UnbockUser(target: ChatUser?, net: Network, now: int)
      modifies this`blocked, net
      ensures blocked == WithoutFirst(old(blocked), target)
      ensures old(BlockListValid()) ==> BlockListValid() && target !in blocked
      ensures net.outbox == if target in old(blocked)
                            then StatusFanout(old(net.outbox), AsSubject(now), ContactReceivers(), AsReceiver())
                            else old(net.outbox)
    {
      var i := 0;
      while i < |blocked|
        invariant 0 <= i <= |blocked|
        invariant target !in blocked[..i]
      {
        if blocked[i] == target {
          WithoutFirstAt(blocked, target, i);
          if BlockListValid() {
            NoDuplicatesKept(blocked, target);
          }
          blocked := blocked[..i] + blocked[i + 1..];
          BroadcastStatus(net, now);
          return;
        }
        assert blocked[..i + 1] == blocked[..i] + [blocked[i]];
        i := i + 1;
      }
      assert blocked[..i] == blocked;
      WithoutFirstAbsent(blocked, target);
    }

    /** AddAsContact: appended as it comes, without removing duplicates. */
    method AddAsContact(contact: ChatUser)
      modifies this`contacts
      ensures contacts == old(contacts) + [contact]
    {
      contacts := contacts + [contact];
    }

    /** BroadcastToContacts: the event to every contact in list order (never
        as the contact's activity), then a ping of this user if `activity`. */
    method BroadcastToContacts(m: Message, activity: bool, from: ChatUser?, net: Network, now: int)
      modifies this`lastChatPing, this`lastCheckInactive, this`isInactive, this`isOffline, net
      ensures activity ==> PingedAt(now)
      ensures !activity ==> ActivityKept()
      ensures net.outbox ==
                var delivered := DeliverAll(old(net.outbox), ContactReceivers(), from, m);
                if activity then PingFanout(delivered, PingViewAt(now, old(isInactive), old(isOffline)))
                else delivered
    {
      NotifyContacts(m, from, net);
      if activity {
        Ping(net, now);
      }
    }

    /** The delivery loop of BroadcastToContacts: each contact in list order
        either takes the event on all its sockets or refuses it. */
    method NotifyContacts(m: Message, from: ChatUser?, net: Network)
      modifies net
      ensures net.outbox == DeliverAll(old(net.outbox), ContactReceivers(), from, m)
    {
      ghost var rs := Receivers(contacts);
      var i := 0;
      while i < |contacts|
        invariant 0 <= i <= |contacts|
        invariant net.outbox == DeliverAll(old(net.outbox), rs[..i], from, m)
      {
        ReceiversAt(contacts, i);
        contacts[i].Notify(m, from, net);
        assert rs[..i + 1][..i] == rs[..i];
        i := i + 1;
      }
      assert rs[..i] == rs;
    }

    method SetPictureHash(newPictureHash: string)
      modifies this`pictureHash
      ensures pictureHash == newPictureHash
    {
      pictureHash := newPictureHash;
    }
  }
}
