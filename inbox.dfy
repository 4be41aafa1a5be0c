/** The receiving page's inboxes: per-receiver queues of incoming transfer
    requests and of text messages, the reducers that add to them, the steps
    that consume their heads, and the display name a new page picks. */
module Inbox {
  import opened Protocol

  datatype Option<T> = None | Some(value: T)

  /** A pending transfer request as the receiver keeps it. */
  datatype FileType = FileType(senderId: string, name: string, size: int)

  /** A received text message. */
  datatype MsgType = MsgType(senderId: string, text: string)

  /** One receiver's queue: `ReceivedFileType` (with `files`) and
      `ReceivedMsgType` (with `msg`) have this shape. */
  datatype Queue<T> = Queue(receiverId: string, items: seq<T>)

  /** `arr.find(r => r.receiverId === id)`: the first queue for `id`. */
  function Find<T>(qs: seq<Queue<T>>, id: string): (r: Option<Queue<T>>)
    ensures r.Some? ==> r.value in qs && r.value.receiverId == id
    ensures r.None? <==> forall q :: q in qs ==> q.receiverId != id
  {
    if qs == [] then None
    else if qs[0].receiverId == id then Some(qs[0])
    else Find(qs[1..], id)
  }

  /** `find` stops at the first match: the queue found sits at some index
      before which no queue has the id. */
  lemma {:induction false} FindFirst<T>(qs: seq<Queue<T>>, id: string)
    ensures Find(qs, id).Some? ==>
      exists i :: 0 <= i < |qs| && qs[i] == Find(qs, id).value && (forall j :: 0 <= j < i ==> qs[j].receiverId != id)
  {
    if qs != [] && qs[0].receiverId != id && Find(qs, id).Some? {
      FindFirst(qs[1..], id);
      var i :| 0 <= i < |qs[1..]| && qs[1..][i] == Find(qs, id).value
        && (forall j :: 0 <= j < i ==> qs[1..][j].receiverId != id);
      assert qs[i + 1] == Find(qs, id).value;
      forall j | 0 <= j < i + 1 ensures qs[j].receiverId != id {
        if j > 0 {
          assert qs[j] == qs[1..][j - 1];
        }
      }
    }
  }

  /** The items queued for `id`, as `find` sees them (none when there is no queue). */
  function ItemsOf<T>(qs: seq<Queue<T>>, id: string): seq<T>
  {
    match Find(qs, id)
    case Some(q) => q.items
    case None => []
  }

  predicate HasQueue<T>(qs: seq<Queue<T>>, id: string)
  {
    Find(qs, id).Some?
  }

  /** At most one queue per receiver. */
  ghost predicate Unique<T>(qs: seq<Queue<T>>)
  {
    forall i, j :: 0 <= i < j < |qs| ==> qs[i].receiverId != qs[j].receiverId
  }

  /** `arr.map(r => r.receiverId === id ? { ...r, items } : r)`. */
  function SetItems<T>(qs: seq<Queue<T>>, id: string, items: seq<T>): (r: seq<Queue<T>>)
    ensures |r| == |qs|
    ensures forall i :: 0 <= i < |qs| ==>
      r[i] == (if qs[i].receiverId == id then Queue(id, items) else qs[i])
  {
    if qs == [] then [] else [if qs[0].receiverId == id then Queue(id, items) else qs[0]] + SetItems(qs[1..], id, items)
  }

  /** `arr.filter(r => r.receiverId !== id)`. */
  function RemoveQueue<T>(qs: seq<Queue<T>>, id: string): (r: seq<Queue<T>>)
  {
    if qs == [] then []
    else if qs[0].receiverId != id then [qs[0]] + RemoveQueue(qs[1..], id)
    else RemoveQueue(qs[1..], id)
  }

  /** Removing keeps exactly the queues with another id: every survivor comes
      from the list and has another id, and every such queue survives. */
  lemma {:induction false} RemoveQueueFilters<T>(qs: seq<Queue<T>>, id: string)
    ensures var r := RemoveQueue(qs, id);
      && (forall i :: 0 <= i < |r| ==> r[i] in qs && r[i].receiverId != id)
      && (forall i :: 0 <= i < |qs| && qs[i].receiverId != id ==> qs[i] in r)
  {
    if qs != [] {
      RemoveQueueFilters(qs[1..], id);
      var r := RemoveQueue(qs, id);
      var rest := RemoveQueue(qs[1..], id);
      forall i | 0 <= i < |r| ensures r[i] in qs && r[i].receiverId != id {
        if qs[0].receiverId != id && i == 0 {
        } else if qs[0].receiverId != id {
          assert r[i] == rest[i - 1] && qs[1..][0..] == qs[1..];
          assert rest[i - 1] in qs[1..];
        } else {
          assert rest[i] in qs[1..];
        }
      }
      forall i | 0 <= i < |qs| && qs[i].receiverId != id ensures qs[i] in r {
        if i > 0 {
          assert qs[i] == qs[1..][i - 1];
        }
      }
    }
  }

  /** Filtering distributes over concatenation, so the survivors keep their
      relative order. */
  lemma {:induction false} RemoveQueueAppend<T>(a: seq<Queue<T>>, b: seq<Queue<T>>, id: string)
    ensures RemoveQueue(a + b, id) == RemoveQueue(a, id) + RemoveQueue(b, id)
  {
    if a == [] {
      assert a + b == b;
    } else {
      assert (a + b)[0] == a[0];
      assert (a + b)[1..] == a[1..] + b;
      RemoveQueueAppend(a[1..], b, id);
    }
  }

  /** Filtering out an id no queue carries changes nothing. */
  lemma {:induction false} RemoveQueueAbsent<T>(qs: seq<Queue<T>>, id: string)
    requires forall i :: 0 <= i < |qs| ==> qs[i].receiverId != id
    ensures RemoveQueue(qs, id) == qs
  {
    if qs != [] {
      RemoveQueueAbsent(qs[1..], id);
    }
  }

  /** With one queue per receiver, filtering out `id` cuts exactly that
      receiver's queue out of the list and leaves the rest in order. */
  lemma RemoveQueueCutsOne<T>(qs: seq<Queue<T>>, id: string, k: int)
    requires Unique(qs) && 0 <= k < |qs| && qs[k].receiverId == id
    ensures RemoveQueue(qs, id) == qs[..k] + qs[k + 1..]
  {
    assert qs == qs[..k] + ([qs[k]] + qs[k + 1..]);
    RemoveQueueAppend(qs[..k], [qs[k]] + qs[k + 1..], id);
    RemoveQueueAppend([qs[k]], qs[k + 1..], id);
    RemoveQueueAbsent(qs[..k], id);
    var rest := qs[k + 1..];
    forall i | 0 <= i < |rest| ensures rest[i].receiverId != id {
      assert rest[i] == qs[k + 1 + i];
    }
    RemoveQueueAbsent(rest, id);
  }

  /** The shared shape of the `senderId` and `receiveMessage` reducers: append
      `item` to the queue of `me`, creating that queue at the end if absent. */
  function Push<T>(qs: seq<Queue<T>>, me: string, item: T): seq<Queue<T>>
  {
    var arr := match Find(qs, me)
      case Some(q) => q.items + [item]
      case None => [item];
    if HasQueue(qs, me) then SetItems(qs, me, arr) else qs + [Queue(me, arr)]
  }

  /** The shared shape of `handleFileArr` and `handleMsgArr`: drop the head of
      `me`'s queue, or remove the queue when it is already empty. */
  function Advance<T>(qs: seq<Queue<T>>, me: string): seq<Queue<T>>
  {
    match Find(qs, me)
    case None => qs
    case Some(q) =>
      if |q.items| > 0 then SetItems(qs, me, q.items[1..])
      else RemoveQueue(qs, me)
  }

  lemma {:induction false} FindSetItems<T>(qs: seq<Queue<T>>, me: string, items: seq<T>, id: string)
    ensures Find(SetItems(qs, me, items), id) ==
      if id != me then Find(qs, id)
      else if HasQueue(qs, me) then Some(Queue(me, items)) else None
  {
    if qs != [] {
      FindSetItems(qs[1..], me, items, id);
      assert SetItems(qs, me, items)[1..] == SetItems(qs[1..], me, items);
    }
  }

  lemma {:induction false} FindRemoveQueue<T>(qs: seq<Queue<T>>, me: string, id: string)
    ensures Find(RemoveQueue(qs, me), id) == if id == me then None else Find(qs, id)
  {
    if qs != [] {
      FindRemoveQueue(qs[1..], me, id);
    }
  }

  lemma {:induction false} FindAppend<T>(qs: seq<Queue<T>>, q: Queue<T>, id: string)
    ensures Find(qs + [q], id) ==
      if HasQueue(qs, id) then Find(qs, id) else if q.receiverId == id then Some(q) else None
  {
    if qs == [] {
      assert qs + [q] == [q];
    } else {
      assert (qs + [q])[1..] == qs[1..] + [q];
      FindAppend(qs[1..], q, id);
    }
  }

  lemma {:induction false} RemoveQueueUnique<T>(qs: seq<Queue<T>>, me: string)
    requires Unique(qs)
    ensures Unique(RemoveQueue(qs, me))
    ensures forall q :: q in RemoveQueue(qs, me) ==> q in qs
  {
    if qs != [] {
      RemoveQueueUnique(qs[1..], me);
      var rest := RemoveQueue(qs[1..], me);
      if qs[0].receiverId != me {
        forall i, j | 0 <= i < j < |[qs[0]] + rest|
          ensures ([qs[0]] + rest)[i].receiverId != ([qs[0]] + rest)[j].receiverId
        {
          if i == 0 {
            assert rest[j - 1] in qs[1..];
          }
        }
      }
    }
  }

  lemma PushFind<T>(qs: seq<Queue<T>>, me: string, item: T, id: string)
    ensures Find(Push(qs, me, item), id) ==
      if id != me then Find(qs, id) else Some(Queue(me, ItemsOf(qs, me) + [item]))
  {
    if HasQueue(qs, me) {
      FindSetItems(qs, me, ItemsOf(qs, me) + [item], id);
    } else {
      assert ItemsOf(qs, me) + [item] == [item];
      FindAppend(qs, Queue(me, [item]), id);
    }
  }

  lemma PushUnique<T>(qs: seq<Queue<T>>, me: string, item: T)
    requires Unique(qs)
    ensures Unique(Push(qs, me, item))
  {
    if !HasQueue(qs, me) {
      var r := qs + [Queue(me, [item])];
      forall i, j | 0 <= i < j < |r|
        ensures r[i].receiverId != r[j].receiverId
      {
        if j == |qs| {
          assert r[i] == qs[i] && qs[i] in qs;
        }
      }
    }
  }

  /** Appending: the item lands at the end of `me`'s queue (created if absent),
      no other receiver's items change, other queues keep their place, and
      there is still at most one queue per receiver. */
  lemma PushSpec<T>(qs: seq<Queue<T>>, me: string, item: T)
    ensures var r := Push(qs, me, item);
      && HasQueue(r, me)
      && ItemsOf(r, me) == ItemsOf(qs, me) + [item]
      && (forall id :: id != me ==> Find(r, id) == Find(qs, id))
      && (forall i :: 0 <= i < |qs| && qs[i].receiverId != me ==> r[i] == qs[i])
      && (!HasQueue(qs, me) ==> r == qs + [Queue(me, [item])])
      && (Unique(qs) ==> Unique(r))
  {
    forall id ensures Find(Push(qs, me, item), id) ==
      if id != me then Find(qs, id) else Some(Queue(me, ItemsOf(qs, me) + [item]))
    {
      PushFind(qs, me, item, id);
    }
    if Unique(qs) {
      PushUnique(qs, me, item);
    }
  }

  /** Consuming: with a non-empty queue the head is dropped and every other
      queue keeps its place; an empty queue is filtered out, the rest keeping
      their order (`RemoveQueueAppend`, `RemoveQueueCutsOne`); with no queue
      nothing changes; no other receiver's items change, and uniqueness is
      kept. */
  lemma AdvanceSpec<T>(qs: seq<Queue<T>>, me: string)
    ensures var r := Advance(qs, me);
      && (!HasQueue(qs, me) ==> r == qs)
      && (HasQueue(qs, me) && |ItemsOf(qs, me)| > 0 ==>
            HasQueue(r, me) && ItemsOf(r, me) == ItemsOf(qs, me)[1..])
      && (HasQueue(qs, me) && |ItemsOf(qs, me)| > 0 ==>
            |r| == |qs| && forall i :: 0 <= i < |qs| && qs[i].receiverId != me ==> r[i] == qs[i])
      && (HasQueue(qs, me) && |ItemsOf(qs, me)| == 0 ==> !HasQueue(r, me) && r == RemoveQueue(qs, me))
      && (forall id :: id != me ==> Find(r, id) == Find(qs, id))
      && (Unique(qs) ==> Unique(r))
  {
    var r := Advance(qs, me);
    if HasQueue(qs, me) {
      var q := Find(qs, me).value;
      if |q.items| > 0 {
        forall id ensures Find(r, id) == if id != me then Find(qs, id) else Some(Queue(me, q.items[1..])) {
          FindSetItems(qs, me, q.items[1..], id);
        }
      } else {
        forall id ensures Find(r, id) == if id == me then None else Find(qs, id) {
          FindRemoveQueue(qs, me, id);
        }
        if Unique(qs) {
          RemoveQueueUnique(qs, me);
        }
      }
    }
  }

  /** `senderId` handler: a request with a non-empty name and a non-zero size
      is queued for this receiver; anything else queues nothing. */
  function OnSenderId(prev: seq<Queue<FileType>>, me: string, data: FileType): (r: seq<Queue<FileType>>)
    ensures data.name == "" || data.size == 0 ==> r == prev
    ensures data.name != "" && data.size != 0 ==>
      && ItemsOf(r, me) == ItemsOf(prev, me) + [FileType(data.senderId, data.name, data.size)]
      && (forall id :: id != me ==> Find(r, id) == Find(prev, id))
      && (Unique(prev) ==> Unique(r))
  {
    if data.name != "" && data.size != 0 then
      PushSpec(prev, me, FileType(data.senderId, data.name, data.size));
      Push(prev, me, FileType(data.senderId, data.name, data.size))
    else prev
  }

  /** `receiveMessage` handler: the message is queued for this receiver. */
  function OnReceiveMessage(prev: seq<Queue<MsgType>>, me: string, msg: string, senderId: string)
    : (r: seq<Queue<MsgType>>)
    ensures ItemsOf(r, me) == ItemsOf(prev, me) + [MsgType(senderId, msg)]
    ensures forall id :: id != me ==> Find(r, id) == Find(prev, id)
    ensures Unique(prev) ==> Unique(r)
  {
    PushSpec(prev, me, MsgType(senderId, msg));
    Push(prev, me, MsgType(senderId, msg))
  }

  /** `handleFileArr`: consume the head of the current user's request queue. */
  function HandleFileArr(receivedFileArr: seq<Queue<FileType>>, currentUser: string): (r: seq<Queue<FileType>>)
    ensures !HasQueue(receivedFileArr, currentUser) ==> r == receivedFileArr
    ensures |ItemsOf(receivedFileArr, currentUser)| > 0 ==>
      HasQueue(r, currentUser) && ItemsOf(r, currentUser) == ItemsOf(receivedFileArr, currentUser)[1..]
    ensures |ItemsOf(receivedFileArr, currentUser)| > 0 ==>
      |r| == |receivedFileArr| &&
      forall i :: 0 <= i < |receivedFileArr| && receivedFileArr[i].receiverId != currentUser ==> r[i] == receivedFileArr[i]
    ensures HasQueue(receivedFileArr, currentUser) && |ItemsOf(receivedFileArr, currentUser)| == 0 ==>
      !HasQueue(r, currentUser) && r == RemoveQueue(receivedFileArr, currentUser)
    ensures forall id :: id != currentUser ==> Find(r, id) == Find(receivedFileArr, id)
    ensures Unique(receivedFileArr) ==> Unique(r)
  {
    AdvanceSpec(receivedFileArr, currentUser);
    Advance(receivedFileArr, currentUser)
  }

  /** `handleMsgArr`: consume the head of the current user's message queue. */
  function HandleMsgArr(receivedMsgArr: seq<Queue<MsgType>>, currentUser: string): (r: seq<Queue<MsgType>>)
    ensures !HasQueue(receivedMsgArr, currentUser) ==> r == receivedMsgArr
    ensures |ItemsOf(receivedMsgArr, currentUser)| > 0 ==>
      HasQueue(r, currentUser) && ItemsOf(r, currentUser) == ItemsOf(receivedMsgArr, currentUser)[1..]
    ensures |ItemsOf(receivedMsgArr, currentUser)| > 0 ==>
      |r| == |receivedMsgArr| &&
      forall i :: 0 <= i < |receivedMsgArr| && receivedMsgArr[i].receiverId != currentUser ==> r[i] == receivedMsgArr[i]
    ensures HasQueue(receivedMsgArr, currentUser) && |ItemsOf(receivedMsgArr, currentUser)| == 0 ==>
      !HasQueue(r, currentUser) && r == RemoveQueue(receivedMsgArr, currentUser)
    ensures forall id :: id != currentUser ==> Find(r, id) == Find(receivedMsgArr, id)
    ensures Unique(receivedMsgArr) ==> Unique(r)
  {
    AdvanceSpec(receivedMsgArr, currentUser);
    Advance(receivedMsgArr, currentUser)
  }

  /** Messages come out in arrival order: queue two, consume one, and the
      second is at the head. */
  lemma FirstInFirstOut(prev: seq<Queue<MsgType>>, me: string, a: MsgType, b: MsgType)
    requires !HasQueue(prev, me)
    ensures ItemsOf(HandleMsgArr(OnReceiveMessage(OnReceiveMessage(prev, me, a.text, a.senderId),
                                                  me, b.text, b.senderId), me), me) == [b]
  {
  }

  /** `getRandomName`: "Sender" when the given roster is empty, "Receiver"
      otherwise. */
  function GetRandomName(users: seq<User>): (name: string)
    ensures name == "Sender" <==> |users| == 0
    ensures name == "Sender" || name == "Receiver"
  {
    if |users| == 0 then "Sender" else "Receiver"
  }
}
