/** The outbound side of the socket layer. Every `socket.emit(kind, data)` of
    the relay is modelled as appending one message to the outbox of that
    socket; the outboxes of all sockets live in one Network object. */
module Wire {
  import opened Presence

  type SocketId = string
  type UserId = string
  type ChatId = string

  /** The data of an emitted event: a status change (NewStatus carries the
      subject's user key and the status id it sees) or any other payload, kept opaque. */
  datatype Payload = StatusUpdate(userKey: UserId, statusId: int) | Data(body: string)

  /** One emitted event: its kind ("NewStatus", "NewMessage", ...) and data. */
  datatype Message = Message(kind: string, payload: Payload)

  type Outbox = map<SocketId, seq<Message>>

  /** A list that holds no element twice. */
  predicate NoDuplicates<T(==)>(s: seq<T>)
  {
    forall i, j :: 0 <= i < j < |s| ==> s[i] != s[j]
  }

  /** A list of the ids in `xs`, each exactly once. */
  predicate Enumerates(s: seq<UserId>, xs: set<UserId>)
  {
    NoDuplicates(s) && (forall x :: x in s ==> x in xs) && (forall x :: x in xs ==> x in s)
  }

  /** Everything emitted so far on socket `s`. */
  function Sent(out: Outbox, s: SocketId): seq<Message>
  {
    if s in out then out[s] else []
  }

  /** The outboxes after emitting `m` once on every socket in `sockets`. */
  function Emit(out: Outbox, sockets: set<SocketId>, m: Message): (r: Outbox)
  {
    map s | s in out.Keys + sockets :: if s in sockets then Sent(out, s) + [m] else out[s]
  }

  /** What `Emit` appends, socket by socket. */
  lemma SentAfterEmit(out: Outbox, sockets: set<SocketId>, m: Message, s: SocketId)
    ensures Sent(Emit(out, sockets, m), s) == if s in sockets then Sent(out, s) + [m] else Sent(out, s)
  {
  }

  /** Emitting on a set of sockets one socket at a time reaches the same
      outboxes, whatever the order: adding one more socket to the set is one
      more append on that socket. */
  lemma EmitOneMore(out: Outbox, sockets: set<SocketId>, s: SocketId, m: Message)
    requires s !in sockets
    ensures Emit(out, sockets + {s}, m) == Emit(out, sockets, m)[s := Sent(out, s) + [m]]
  {
    var lhs := Emit(out, sockets + {s}, m);
    var rhs := Emit(out, sockets, m)[s := Sent(out, s) + [m]];
    assert lhs.Keys == rhs.Keys;
    forall k | k in lhs.Keys ensures lhs[k] == rhs[k] {
      assert Sent(lhs, k) == lhs[k] && Sent(rhs, k) == rhs[k];
    }
  }

  /** The transport: one outbox per socket. */
  class Network {
    var outbox: Outbox

    constructor ()
      ensures outbox == map[]
    {
      outbox := map[];
    }

    /** socket.emit(kind, data) on socket `s`. */
    method Send(s: SocketId, m: Message)
      modifies this
      ensures outbox == old(outbox)[s := Sent(old(outbox), s) + [m]]
    {
      outbox := outbox[s := Sent(outbox, s) + [m]];
    }
  }
}
