/** CAPWAP fragmentation and reassembly, `datapath/vport-capwap.c`: `fragment` splits a
    payload into frames, `frag_queue` takes fragments in any order and fires `frag_reasm`
    once it believes it has them all. */
module Capwap {
  import opened Wrappers

  type Byte = b: int | 0 <= b < 256

  const MAX_PAYLOAD := 65535
  const ETH_HLEN := 14

  /** One frame's tunnel payload: its fragment offset, its data and the last-fragment flag. */
  datatype Fragment = Fragment(offset: nat, data: seq<Byte>, last: bool) {
    function End(): nat { offset + |data| }
  }

  // ---- Splitting ----

  /** The multiple of 8 that a non-final fragment carries when `room` bytes fit a frame. */
  function Chunk(room: nat): (c: nat)
    ensures room - 7 <= c <= room && c % 8 == 0
    ensures room >= 8 ==> c >= 8
  {
    room - room % 8
  }

  /** The fragments of `payload` from `offset` on. */
  function Split(payload: seq<Byte>, room: nat, offset: nat): seq<Fragment>
    requires room >= 8 && offset <= |payload|
    decreases |payload| - offset
  {
    if offset == |payload| then []
    else if |payload| - offset <= room then [Fragment(offset, payload[offset..], true)]
    else [Fragment(offset, payload[offset..offset + Chunk(room)], false)] + Split(payload, room, offset + Chunk(room))
  }

  /** The size of the fragment that starts with `remaining` bytes to go. */
  function FragSize(remaining: nat, room: nat): nat {
    var size := if remaining < room then remaining else room;
    if remaining > size then Chunk(size) else size
  }

  lemma SplitStep(payload: seq<Byte>, room: nat, offset: nat)
    requires room >= 8 && offset < |payload|
    ensures var n := FragSize(|payload| - offset, room);
            && 0 < n <= room && offset + n <= |payload|
            && Split(payload, room, offset)
               == [Fragment(offset, payload[offset..offset + n], offset + n == |payload|)] + Split(payload, room, offset + n)
  {
    if |payload| - offset <= room {
      assert payload[offset..|payload|] == payload[offset..];
      assert Split(payload, room, |payload|) == [];
    }
  }

  lemma {:induction false} SplitFitsRoom(payload: seq<Byte>, room: nat, offset: nat)
    requires room >= 8 && offset <= |payload|
    ensures var s := Split(payload, room, offset); forall j | 0 <= j < |s| :: |s[j].data| <= room
    decreases |payload| - offset
  {
    if offset < |payload| {
      SplitStep(payload, room, offset);
      SplitFitsRoom(payload, room, offset + FragSize(|payload| - offset, room));
    }
  }

  /** Every fragment but the last is as long as fits: another 8 bytes would not. */
  lemma {:induction false} SplitIsGreedy(payload: seq<Byte>, room: nat, offset: nat, j: nat)
    requires room >= 8 && offset <= |payload| && j + 1 < |Split(payload, room, offset)|
    ensures |Split(payload, room, offset)[j].data| <= room < |Split(payload, room, offset)[j].data| + 8
    decreases |payload| - offset
  {
    if j > 0 {
      SplitIsGreedy(payload, room, offset + Chunk(room), j - 1);
    }
  }

  lemma OneMore(payload: seq<Byte>, room: nat, offset: nat, done: seq<Fragment>, all: seq<Fragment>)
    requires room >= 8 && offset < |payload| && done + Split(payload, room, offset) == all
    ensures var n := FragSize(|payload| - offset, room);
            && 0 < n <= room && offset + n <= |payload|
            && done + [Fragment(offset, payload[offset..offset + n], offset + n == |payload|)] + Split(payload, room, offset + n) == all
  {
    SplitStep(payload, room, offset);
  }

  /** `fragment`: `hlen` header bytes are copied into every frame, and a frame may be at
      most `maxFrameLen` bytes long.  Fails when not even 8 bytes of payload fit. */
  method FragmentPacket(payload: seq<Byte>, hlen: nat, maxFrameLen: nat) returns (r: Result<seq<Fragment>>)
    ensures r.Error? <==> hlen + 8 > maxFrameLen
    ensures r.Ok? ==> r.value == Split(payload, maxFrameLen - hlen, 0)
    ensures r.Ok? ==> forall j | 0 <= j < |r.value| :: hlen + |r.value[j].data| <= maxFrameLen
  {
    if hlen + 8 > maxFrameLen {
      return Error;
    }
    var room := maxFrameLen - hlen;
    ghost var all := Split(payload, room, 0);
    var result: seq<Fragment> := [];
    var remaining: nat, offset: nat := |payload|, 0;
    while remaining > 0
      invariant offset + remaining == |payload|
      invariant result + Split(payload, room, offset) == all
    {
      OneMore(payload, room, offset, result, all);
      var fragSize := FragSize(remaining, room);
      result := result + [Fragment(offset, payload[offset..offset + fragSize], remaining <= fragSize)];
      offset := offset + fragSize;
      remaining := remaining - fragSize;
    }
    SplitFitsRoom(payload, room, 0);
    return Ok(result);
  }

  // ---- Reassembly ----

  /** struct frag_queue: the fragment list, the expected length, the bytes held, and the
      INET_FRAG_FIRST_IN, LAST_IN and COMPLETE flags. */
  datatype QueueState = QueueState(
    fragments: seq<Fragment>, len: nat, meat: nat, firstIn: bool, lastIn: bool, complete: bool)

  const EMPTY := QueueState([], 0, 0, false, false, false)

  /** The bytes of the fragments in list order, as frag_reasm chains them. */
  function Flatten(s: seq<Fragment>): seq<Byte> {
    if s == [] then [] else Flatten(s[..|s| - 1]) + s[|s| - 1].data
  }

  function Total(s: seq<Fragment>): nat {
    if s == [] then 0 else Total(s[..|s| - 1]) + |s[|s| - 1].data|
  }

  /** The length and last-fragment bookkeeping, which may refuse the fragment. */
  function Admit(q: QueueState, f: Fragment): Option<QueueState> {
    if f.last then
      if f.End() < q.len || q.lastIn then None else Some(q.(lastIn := true, len := f.End()))
    else if f.End() % 8 != 0 then None
    else if f.End() > q.len then
      if q.lastIn then None else Some(q.(len := f.End()))
    else Some(q)
  }

  /** The number of fragments that start before `offset`, up to the first that does not. */
  function Position(s: seq<Fragment>, offset: nat): (pos: nat)
    ensures pos <= |s|
  {
    if s == [] || s[0].offset >= offset then 0 else 1 + Position(s[1..], offset)
  }

  function Insert(s: seq<Fragment>, f: Fragment, pos: nat): seq<Fragment>
    requires pos <= |s|
  {
    s[..pos] + [f] + s[pos..]
  }

  predicate Fits(s: seq<Fragment>, f: Fragment, pos: nat)
    requires pos <= |s|
  {
    && (pos > 0 ==> s[pos - 1].End() <= f.offset)
    && (pos < |s| ==> f.End() <= s[pos].offset)
  }

  /** Links an admitted fragment into the list and reassembles if that was the last gap. */
  function Store(q: QueueState, f: Fragment): (QueueState, Option<seq<Byte>>) {
    var pos := Position(q.fragments, f.offset);
    if !Fits(q.fragments, f, pos) then (q, None)
    else
      var q' := q.(fragments := Insert(q.fragments, f, pos), meat := q.meat + |f.data|, firstIn := q.firstIn || f.offset == 0);
      if q'.firstIn && q'.lastIn && q'.meat == q'.len
      then (q'.(complete := true), if q'.len > MAX_PAYLOAD then None else Some(Flatten(q'.fragments)))
      else (q', None)
  }

  /** One arrival.  A fragment refused for overlap leaves the changes of `Admit` behind. */
  function Receive(q: QueueState, f: Fragment): (QueueState, Option<seq<Byte>>) {
    if q.complete || f.data == [] then (q, None)
    else
      match Admit(q, f)
      case None => (q, None)
      case Some(q') => Store(q', f)
  }

  /** frag_queue on the kernel's mutable queue. */
  class FragQueue {
    var fragments: seq<Fragment>
    var len: nat
    var meat: nat
    var firstIn: bool
    var lastIn: bool
    var complete: bool

    function View(): QueueState
      reads this
    {
      QueueState(fragments, len, meat, firstIn, lastIn, complete)
    }

    constructor ()
      ensures View() == EMPTY
    {
      fragments, len, meat := [], 0, 0;
      firstIn, lastIn, complete := false, false, false;
    }

    /** The scan for the place of a fragment in the list. */
    method FindPosition(offset: nat) returns (pos: nat)
      ensures pos == Position(fragments, offset)
    {
      pos := 0;
      while pos < |fragments| && fragments[pos].offset < offset
        invariant pos <= |fragments|
        invariant Position(fragments, offset) == pos + Position(fragments[pos..], offset)
      {
        pos := pos + 1;
      }
    }

    method AdmitFragment(f: Fragment) returns (ok: bool)
      modifies `len, `lastIn
      ensures match Admit(old(View()), f)
              case None => !ok && View() == old(View())
              case Some(q) => ok && View() == q
    {
      var end := f.offset + |f.data|;
      if f.last {
        if end < len || lastIn {
          return false;
        }
        lastIn := true;
        len := end;
      } else {
        if end % 8 != 0 {
          return false;
        }
        if end > len {
          if lastIn {
            return false;
          }
          len := end;
        }
      }
      return true;
    }

    method Enqueue(f: Fragment) returns (payload: Option<seq<Byte>>)
      modifies this
      ensures (View(), payload) == Receive(old(View()), f)
    {
      payload := None;
      if complete || f.data == [] {
        return;
      }
      var ok := AdmitFragment(f);
      if !ok {
        return;
      }
      var pos := FindPosition(f.offset);
      if pos > 0 && fragments[pos - 1].offset + |fragments[pos - 1].data| > f.offset {
        return;
      }
      if pos < |fragments| && f.offset + |f.data| > fragments[pos].offset {
        return;
      }
      fragments := Insert(fragments, f, pos);
      meat := meat + |f.data|;
      if f.offset == 0 {
        firstIn := true;
      }
      if firstIn && lastIn && meat == len {
        complete := true;
        if len <= MAX_PAYLOAD {
          payload := Some(Flatten(fragments));
        }
      }
    }
  }

  /** frag_reasm kills its queue, whether it succeeds or fails: the next fragment of the same
      datagram finds none and gets a new one. */
  function Kept(q: QueueState): QueueState {
    if q.complete then EMPTY else q
  }

  /** defrag, with one queue for each pair of addresses and fragment id. */
  class Defragmenter {
    var queues: map<nat, FragQueue>

    constructor ()
      ensures Valid() && forall k :: At(k) == EMPTY
    {
      queues := map[];
    }

    predicate Valid()
      reads this, queues.Values
    {
      && (forall k | k in queues :: !queues[k].complete)
      && (forall j, k | j in queues && k in queues && queues[j] == queues[k] :: j == k)
    }

    /** The queue that defrag would work on. */
    function At(key: nat): QueueState
      reads this, queues.Values
    {
      if key in queues then queues[key].View() else EMPTY
    }

    method Defrag(key: nat, f: Fragment) returns (payload: Option<seq<Byte>>)
      requires Valid()
      modifies this, queues.Values
      ensures Valid()
      ensures payload == Receive(old(At(key)), f).1 && At(key) == Kept(Receive(old(At(key)), f).0)
      ensures forall k | k != key :: At(k) == old(At(k))
    {
      if key !in queues {
        var q := new FragQueue();
        queues := queues[key := q];
      }
      payload := queues[key].Enqueue(f);
      if queues[key].complete {
        queues := queues - {key};
      }
    }
  }

  // ---- Safety on arbitrary fragments ----

  predicate Disjoint(s: seq<Fragment>) {
    forall i, j | 0 <= i < j < |s| :: s[i].End() <= s[j].offset
  }

  predicate Within(s: seq<Fragment>, len: nat) {
    forall i | 0 <= i < |s| :: s[i].data != [] && s[i].End() <= len
  }

  predicate Valid(q: QueueState) {
    && Disjoint(q.fragments)
    && Within(q.fragments, q.len)
    && q.meat == Total(q.fragments)
    && (q.firstIn <==> q.fragments != [] && q.fragments[0].offset == 0)
    && (q.complete ==> q.firstIn && q.lastIn && q.meat == q.len)
  }

  /** The fragments cover [0, len) exactly once, in order. */
  predicate Tiles(s: seq<Fragment>, len: nat) {
    if s == [] then len == 0
    else s[|s| - 1].End() == len && Tiles(s[..|s| - 1], s[|s| - 1].offset)
  }

  lemma {:induction false} TotalConcat(a: seq<Fragment>, b: seq<Fragment>)
    ensures Total(a + b) == Total(a) + Total(b)
  {
    if b == [] {
      assert a + b == a;
    } else {
      assert (a + b)[..|a + b| - 1] == a + b[..|b| - 1];
      TotalConcat(a, b[..|b| - 1]);
    }
  }

  lemma {:induction false} FlattenConcat(a: seq<Fragment>, b: seq<Fragment>)
    ensures Flatten(a + b) == Flatten(a) + Flatten(b)
  {
    if b == [] {
      assert a + b == a;
    } else {
      assert (a + b)[..|a + b| - 1] == a + b[..|b| - 1];
      FlattenConcat(a, b[..|b| - 1]);
    }
  }

  lemma {:induction false} FlattenLength(s: seq<Fragment>)
    ensures |Flatten(s)| == Total(s)
  {
    if s != [] {
      FlattenLength(s[..|s| - 1]);
    }
  }

  /** Disjoint fragments never hold more than fits below the last end. */
  lemma {:induction false} DisjointTotal(s: seq<Fragment>)
    requires Disjoint(s)
    ensures s != [] ==> Total(s) <= s[|s| - 1].End()
  {
    if s != [] {
      var init := s[..|s| - 1];
      DisjointTotal(init);
      assert init != [] ==> init[|init| - 1].End() <= s[|s| - 1].offset;
    }
  }

  /** Disjoint fragments below `len` that hold `len` bytes leave no gap. */
  lemma {:induction false} FullMeansTiled(s: seq<Fragment>, len: nat)
    requires Disjoint(s) && Within(s, len) && Total(s) == len
    ensures Tiles(s, len)
  {
    if s != [] {
      var init, z := s[..|s| - 1], s[|s| - 1];
      DisjointTotal(init);
      assert init != [] ==> init[|init| - 1].End() <= z.offset;
      FullMeansTiled(init, z.offset);
    }
  }

  lemma {:induction false} PositionSplits(s: seq<Fragment>, offset: nat)
    requires Disjoint(s)
    ensures forall i | 0 <= i < |s| :: s[i].offset < offset <==> i < Position(s, offset)
  {
    if s != [] && s[0].offset < offset {
      PositionSplits(s[1..], offset);
    } else if s != [] {
      assert forall i | 0 < i < |s| :: s[0].End() <= s[i].offset;
    }
  }

  lemma InsertDisjoint(s: seq<Fragment>, f: Fragment, pos: nat)
    requires Disjoint(s) && pos <= |s|
    requires forall i | 0 <= i < pos :: s[i].End() <= f.offset
    requires forall i | pos <= i < |s| :: f.End() <= s[i].offset
    ensures Disjoint(Insert(s, f, pos))
  {
    var t := Insert(s, f, pos);
    forall i, j | 0 <= i < j < |t| ensures t[i].End() <= t[j].offset {
      var i' := if i < pos then i else i - 1;
      var j' := if j < pos then j else j - 1;
      assert i != pos ==> t[i] == s[i'];
      assert j != pos ==> t[j] == s[j'];
    }
  }

  lemma InsertWithin(s: seq<Fragment>, f: Fragment, pos: nat, len: nat)
    requires Within(s, len) && pos <= |s| && f.data != [] && f.End() <= len
    ensures Within(Insert(s, f, pos), len)
  {
    var t := Insert(s, f, pos);
    forall i | 0 <= i < |t| ensures t[i].data != [] && t[i].End() <= len {
      assert i != pos ==> t[i] == s[if i < pos then i else i - 1];
    }
  }

  lemma InsertTotal(s: seq<Fragment>, f: Fragment, pos: nat)
    requires pos <= |s|
    ensures Total(Insert(s, f, pos)) == Total(s) + |f.data|
  {
    assert s == s[..pos] + s[pos..];
    TotalConcat(s[..pos], s[pos..]);
    TotalConcat(s[..pos] + [f], s[pos..]);
    TotalConcat(s[..pos], [f]);
    assert Total([f]) == |f.data| by { assert [f][..0] == []; }
  }

  lemma InsertKeeps(s: seq<Fragment>, f: Fragment, len: nat)
    requires Disjoint(s) && Within(s, len) && f.data != [] && f.End() <= len
    requires Fits(s, f, Position(s, f.offset))
    ensures var t := Insert(s, f, Position(s, f.offset));
            && Disjoint(t) && Within(t, len) && Total(t) == Total(s) + |f.data|
            && (t[0].offset == 0 <==> (s != [] && s[0].offset == 0) || f.offset == 0)
  {
    var pos := Position(s, f.offset);
    PositionSplits(s, f.offset);
    assert forall i | 0 <= i < pos - 1 :: s[i].End() <= s[pos - 1].offset;
    assert forall i | pos < i < |s| :: s[pos].End() <= s[i].offset;
    InsertDisjoint(s, f, pos);
    InsertWithin(s, f, pos, len);
    InsertTotal(s, f, pos);
  }

  /** The queue is consistent, and a payload comes out exactly when the queue has just
      completed within the size limit; the fragments then tile [0, len) and the payload is
      their `len` bytes. */
  predicate SafeOutcome(was: bool, q: QueueState, out: Option<seq<Byte>>) {
    && Valid(q)
    && (out.Some? <==> !was && q.complete && q.len <= MAX_PAYLOAD)
    && (out.Some? ==> Tiles(q.fragments, q.len) && out.value == Flatten(q.fragments) && |out.value| == q.len)
  }

  lemma StoreSafe(q: QueueState, f: Fragment)
    requires Valid(q) && !q.complete && f.data != [] && f.End() <= q.len
    ensures SafeOutcome(false, Store(q, f).0, Store(q, f).1)
  {
    if Fits(q.fragments, f, Position(q.fragments, f.offset)) {
      InsertKeeps(q.fragments, f, q.len);
      var q' := Store(q, f).0;
      if q'.meat == q'.len {
        FullMeansTiled(q'.fragments, q'.len);
        FlattenLength(q'.fragments);
      }
    }
  }

  lemma AdmitKeeps(q: QueueState, f: Fragment)
    requires Valid(q) && !q.complete && Admit(q, f).Some?
    ensures var q' := Admit(q, f).value; Valid(q') && !q'.complete && f.End() <= q'.len
  {
  }

  /** Whatever arrives, the queue stays consistent, and a payload is produced only when the
      fragments held tile [0, len) exactly. */
  lemma ReceiveSafe(q: QueueState, f: Fragment)
    requires Valid(q)
    ensures SafeOutcome(q.complete, Receive(q, f).0, Receive(q, f).1)
  {
    if !q.complete && f.data != [] && Admit(q, f).Some? {
      AdmitKeeps(q, f);
      StoreSafe(Admit(q, f).value, f);
    }
  }

  /** A fragment that is not the last and does not end on a multiple of 8 bytes is refused, as
      is one without data: nothing changes and nothing comes out. */
  lemma MisalignedRefused(q: QueueState, f: Fragment)
    requires (!f.last && f.End() % 8 != 0) || f.data == []
    ensures Receive(q, f) == (q, None)
  {
  }

  /** So are a second last fragment, a last one that ends before data already seen, and one
      beyond a last fragment already in. */
  lemma ContradictionRefused(q: QueueState, f: Fragment)
    requires (q.lastIn && (f.last || f.End() > q.len)) || (f.last && f.End() < q.len)
    ensures Receive(q, f) == (q, None)
  {
  }

  /** A fragment that overlaps one already held is not stored, and nothing comes out. */
  lemma OverlapRefused(q: QueueState, f: Fragment, i: nat)
    requires Valid(q) && i < |q.fragments| && f.offset < q.fragments[i].End() && q.fragments[i].offset < f.End()
    ensures Receive(q, f).0.fragments == q.fragments && Receive(q, f).1 == None
  {
    if !q.complete && f.data != [] && Admit(q, f).Some? {
      var s := q.fragments;
      PositionSplits(s, f.offset);
      var pos := Position(s, f.offset);
      assert !Fits(s, f, pos);
    }
  }

  /** The queue that defrag has for a datagram after a whole series of arrivals. */
  function After(arrivals: seq<Fragment>): QueueState
    decreases |arrivals|, 1
  {
    if arrivals == [] then EMPTY else Kept(Latest(arrivals))
  }

  /** The queue that the last arrival went to, as frag_queue left it. */
  function Latest(arrivals: seq<Fragment>): QueueState
    requires arrivals != []
    decreases |arrivals|, 0
  {
    Receive(After(arrivals[..|arrivals| - 1]), arrivals[|arrivals| - 1]).0
  }

  /** What the last arrival of the series makes defrag return. */
  function Output(arrivals: seq<Fragment>): Option<seq<Byte>> {
    if arrivals == [] then None
    else Receive(After(arrivals[..|arrivals| - 1]), arrivals[|arrivals| - 1]).1
  }

  /** Reassembly safety over every series of arrivals: overlapping, misaligned, repeated or
      with conflicting last markers. */
  lemma {:induction false} ReassemblySafe(arrivals: seq<Fragment>)
    ensures Valid(After(arrivals)) && !After(arrivals).complete
    ensures Output(arrivals).Some? ==>
              var q := Latest(arrivals);
              && Valid(q) && Tiles(q.fragments, q.len)
              && Output(arrivals).value == Flatten(q.fragments) && |Output(arrivals).value| == q.len <= MAX_PAYLOAD
  {
    if arrivals != [] {
      ReassemblySafe(arrivals[..|arrivals| - 1]);
      ReceiveSafe(After(arrivals[..|arrivals| - 1]), arrivals[|arrivals| - 1]);
    }
  }

  // ---- Round trip ----

  /** Frame `j` is a nonempty aligned piece of `payload`, ends where the next one starts,
      and is marked last exactly when no other follows. */
  predicate Piece(frames: seq<Fragment>, payload: seq<Byte>, j: nat)
    requires j < |frames|
  {
    var f := frames[j];
    && f.data != [] && f.End() <= |payload| && f.data == payload[f.offset..f.End()]
    && (if j + 1 < |frames| then !f.last && f.End() % 8 == 0 && frames[j + 1].offset == f.End()
        else f.last && f.End() == |payload|)
  }

  /** `frames` cut `payload` from `offset` on into consecutive pieces. */
  predicate Cuts(frames: seq<Fragment>, payload: seq<Byte>, offset: nat) {
    frames != [] && frames[0].offset == offset && forall j: nat | j < |frames| :: Piece(frames, payload, j)
  }

  lemma {:induction false} SplitCuts(payload: seq<Byte>, room: nat, offset: nat)
    requires room >= 8 && offset < |payload| && offset % 8 == 0
    ensures Cuts(Split(payload, room, offset), payload, offset)
    decreases |payload| - offset
  {
    if |payload| - offset > room {
      var rest := Split(payload, room, offset + Chunk(room));
      var s := Split(payload, room, offset);
      SplitCuts(payload, room, offset + Chunk(room));
      forall j: nat | j < |s| ensures Piece(s, payload, j) {
        if j > 0 {
          assert s[j] == rest[j - 1] && Piece(rest, payload, j - 1);
        }
      }
    }
  }

  /** The frames lo..hi whose index is in `got`, in order. */
  function Picked(frames: seq<Fragment>, got: set<nat>, lo: nat, hi: nat): seq<Fragment>
    requires lo <= hi <= |frames|
  {
    if hi == lo then []
    else if hi - 1 in got then Picked(frames, got, lo, hi - 1) + [frames[hi - 1]]
    else Picked(frames, got, lo, hi - 1)
  }

  /** The end of the furthest picked frame below `hi`. */
  function Reach(frames: seq<Fragment>, got: set<nat>, hi: nat): nat
    requires hi <= |frames|
  {
    if hi == 0 then 0 else if hi - 1 in got then frames[hi - 1].End() else Reach(frames, got, hi - 1)
  }

  /** Where frame `hi` starts, or the end of the payload. */
  function Boundary(frames: seq<Fragment>, hi: nat): nat
    requires hi <= |frames|
  {
    if hi == 0 then 0 else frames[hi - 1].End()
  }

  predicate Complete(got: set<nat>, n: nat) {
    forall i: nat | i < n :: i in got
  }

  /** The queue that holds exactly the frames in `got`. */
  function Held(frames: seq<Fragment>, got: set<nat>): QueueState {
    var s := Picked(frames, got, 0, |frames|);
    QueueState(s, Reach(frames, got, |frames|), Total(s), 0 in got, |frames| - 1 in got, false)
  }

  lemma {:induction false} CutsOrdered(frames: seq<Fragment>, payload: seq<Byte>, i: nat, j: nat)
    requires Cuts(frames, payload, 0) && i < j < |frames|
    ensures frames[i].offset < frames[i].End() <= frames[j].offset < frames[j].End()
    decreases j - i
  {
    assert Piece(frames, payload, i) && Piece(frames, payload, j);
    if i + 1 < j {
      CutsOrdered(frames, payload, i + 1, j);
    }
  }

  lemma {:induction false} PickedSplit(frames: seq<Fragment>, got: set<nat>, lo: nat, mid: nat, hi: nat)
    requires lo <= mid <= hi <= |frames|
    ensures Picked(frames, got, lo, hi) == Picked(frames, got, lo, mid) + Picked(frames, got, mid, hi)
    decreases hi
  {
    if mid < hi {
      PickedSplit(frames, got, lo, mid, hi - 1);
    }
  }

  lemma {:induction false} PickedAgree(frames: seq<Fragment>, got: set<nat>, got': set<nat>, lo: nat, hi: nat)
    requires lo <= hi <= |frames| && forall i: nat | lo <= i < hi :: i in got <==> i in got'
    ensures Picked(frames, got, lo, hi) == Picked(frames, got', lo, hi)
    decreases hi
  {
    if lo < hi {
      PickedAgree(frames, got, got', lo, hi - 1);
    }
  }

  predicate AllBefore(s: seq<Fragment>, offset: nat) {
    forall k | 0 <= k < |s| :: s[k].offset < s[k].End() <= offset
  }

  predicate AllFrom(s: seq<Fragment>, offset: nat) {
    forall k | 0 <= k < |s| :: s[k].offset >= offset
  }

  /** Frames picked below `i` end before frame `i`; those from `lo` on do not start before it. */
  lemma {:induction false} PickedBelow(frames: seq<Fragment>, payload: seq<Byte>, got: set<nat>, hi: nat, i: nat)
    requires Cuts(frames, payload, 0) && hi <= i < |frames|
    ensures AllBefore(Picked(frames, got, 0, hi), frames[i].offset)
    ensures Reach(frames, got, hi) <= frames[i].offset
    decreases hi
  {
    if hi > 0 {
      PickedBelow(frames, payload, got, hi - 1, i);
      CutsOrdered(frames, payload, hi - 1, i);
    }
  }

  lemma {:induction false} PickedAbove(frames: seq<Fragment>, payload: seq<Byte>, got: set<nat>, lo: nat, hi: nat)
    requires Cuts(frames, payload, 0) && lo <= hi <= |frames| && lo < |frames|
    ensures AllFrom(Picked(frames, got, lo, hi), if lo in got then frames[lo].offset else frames[lo].End())
    decreases hi
  {
    if lo < hi {
      PickedAbove(frames, payload, got, lo, hi - 1);
      if lo < hi - 1 {
        CutsOrdered(frames, payload, lo, hi - 1);
      }
    }
  }

  lemma {:induction false} PositionAt(a: seq<Fragment>, b: seq<Fragment>, offset: nat)
    requires AllBefore(a, offset)
    requires b != [] ==> b[0].offset >= offset
    ensures Position(a + b, offset) == |a|
  {
    if a == [] {
      assert a + b == b;
    } else {
      assert (a + b)[1..] == a[1..] + b;
      PositionAt(a[1..], b, offset);
    }
  }

  lemma {:induction false} ReachInsert(frames: seq<Fragment>, payload: seq<Byte>, got: set<nat>, i: nat, hi: nat)
    requires Cuts(frames, payload, 0) && i < hi <= |frames|
    ensures var r := Reach(frames, got, hi);
            Reach(frames, got + {i}, hi) == if frames[i].End() > r then frames[i].End() else r
    decreases hi
  {
    PickedBelow(frames, payload, got, hi - 1, hi - 1);
    assert Piece(frames, payload, hi - 1);
    if i < hi - 1 {
      CutsOrdered(frames, payload, i, hi - 1);
      ReachInsert(frames, payload, got, i, hi - 1);
    }
  }

  lemma BoundaryStep(frames: seq<Fragment>, payload: seq<Byte>, hi: nat)
    requires Cuts(frames, payload, 0) && 0 < hi <= |frames|
    ensures var (b, b', f) := (Boundary(frames, hi - 1), Boundary(frames, hi), frames[hi - 1]);
            b == f.offset && b < b' == b + |f.data| <= |payload| && f.data == payload[b..b']
  {
    assert Piece(frames, payload, hi - 1);
    assert hi > 1 ==> Piece(frames, payload, hi - 2);
  }

  /** The bytes held below `hi` reach the boundary exactly when nothing is missing ... */
  lemma {:induction false} PickedTotal(frames: seq<Fragment>, payload: seq<Byte>, got: set<nat>, hi: nat)
    requires Cuts(frames, payload, 0) && hi <= |frames|
    ensures Total(Picked(frames, got, 0, hi)) <= Boundary(frames, hi) <= |payload|
    ensures Total(Picked(frames, got, 0, hi)) == Boundary(frames, hi) <==> Complete(got, hi)
    decreases hi
  {
    if hi > 0 {
      PickedTotal(frames, payload, got, hi - 1);
      BoundaryStep(frames, payload, hi);
      assert Complete(got, hi) <==> Complete(got, hi - 1) && hi - 1 in got;
      if hi - 1 in got {
        var init := Picked(frames, got, 0, hi - 1);
        assert (init + [frames[hi - 1]])[..|init|] == init;
      }
    }
  }

  /** ... and then they are the payload up to it. */
  lemma {:induction false} PickedBytes(frames: seq<Fragment>, payload: seq<Byte>, got: set<nat>, hi: nat)
    requires Cuts(frames, payload, 0) && hi <= |frames| && Complete(got, hi)
    ensures Boundary(frames, hi) <= |payload| && Flatten(Picked(frames, got, 0, hi)) == payload[..Boundary(frames, hi)]
    decreases hi
  {
    if hi > 0 {
      PickedBytes(frames, payload, got, hi - 1);
      BoundaryStep(frames, payload, hi);
      var init := Picked(frames, got, 0, hi - 1);
      assert (init + [frames[hi - 1]])[..|init|] == init;
      var (b, b') := (Boundary(frames, hi - 1), Boundary(frames, hi));
      assert payload[..b] + payload[b..b'] == payload[..b'];
    }
  }

  lemma PlaceOf(frames: seq<Fragment>, payload: seq<Byte>, got: set<nat>, i: nat)
    requires Cuts(frames, payload, 0) && i < |frames|
    ensures var s := Picked(frames, got, 0, |frames|); var a := Picked(frames, got, 0, i); var b := Picked(frames, got, i, |frames|);
            s == a + b && Position(s, frames[i].offset) == |a| && AllBefore(a, frames[i].offset)
            && AllFrom(b, if i in got then frames[i].offset else frames[i].End())
  {
    PickedSplit(frames, got, 0, i, |frames|);
    PickedBelow(frames, payload, got, i, i);
    PickedAbove(frames, payload, got, i, |frames|);
    PositionAt(Picked(frames, got, 0, i), Picked(frames, got, i, |frames|), frames[i].offset);
  }

  lemma PickedInsert(frames: seq<Fragment>, payload: seq<Byte>, got: set<nat>, i: nat)
    requires Cuts(frames, payload, 0) && i < |frames| && i !in got
    ensures var s := Picked(frames, got, 0, |frames|); var pos := Position(s, frames[i].offset);
            Fits(s, frames[i], pos) && Picked(frames, got + {i}, 0, |frames|) == Insert(s, frames[i], pos)
  {
    var n, got' := |frames|, got + {i};
    PlaceOf(frames, payload, got, i);
    PickedSplit(frames, got', 0, i, n);
    PickedSplit(frames, got', i, i + 1, n);
    PickedSplit(frames, got, i, i + 1, n);
    PickedAgree(frames, got, got', 0, i);
    PickedAgree(frames, got, got', i + 1, n);
    var a, b := Picked(frames, got, 0, i), Picked(frames, got, i, n);
    assert Picked(frames, got', i, i + 1) == [frames[i]] && Picked(frames, got, i, i + 1) == [];
    assert (a + b)[..|a|] == a && (a + b)[|a|..] == b;
  }

  /** A frame already held is refused and changes nothing. */
  lemma RepeatIgnored(frames: seq<Fragment>, payload: seq<Byte>, got: set<nat>, i: nat)
    requires Cuts(frames, payload, 0) && i < |frames| && i in got
    ensures Receive(Held(frames, got), frames[i]) == (Held(frames, got), None)
  {
    PlaceOf(frames, payload, got, i);
    PickedSplit(frames, got, i, i + 1, |frames|);
    ReachInsert(frames, payload, got, i, |frames|);
    assert got + {i} == got;
    assert Piece(frames, payload, i) && Piece(frames, payload, |frames| - 1);
    var a, b := Picked(frames, got, 0, i), Picked(frames, got, i, |frames|);
    assert Picked(frames, got, i, i + 1) == [frames[i]];
    assert b[0] == frames[i] && (a + b)[|a|] == b[0];
  }

  lemma AdmitMissing(frames: seq<Fragment>, payload: seq<Byte>, got: set<nat>, i: nat)
    requires Cuts(frames, payload, 0) && i < |frames| && i !in got
    ensures Admit(Held(frames, got), frames[i])
            == Some(Held(frames, got).(len := Reach(frames, got + {i}, |frames|), lastIn := |frames| - 1 in got + {i}))
  {
    ReachInsert(frames, payload, got, i, |frames|);
    assert Piece(frames, payload, i) && Piece(frames, payload, |frames| - 1);
    PickedBelow(frames, payload, got, |frames| - 1, |frames| - 1);
  }

  /** With the first and the last frame in, the byte count meets the length exactly when
      nothing is missing, and then the bytes are the payload. */
  lemma CountDecides(frames: seq<Fragment>, payload: seq<Byte>, got: set<nat>)
    requires Cuts(frames, payload, 0)
    ensures var q := Held(frames, got);
            q.firstIn && q.lastIn && q.meat == q.len <==> Complete(got, |frames|)
    ensures Complete(got, |frames|) ==> Held(frames, got).len == |payload| && Flatten(Held(frames, got).fragments) == payload
  {
    var n := |frames|;
    assert Piece(frames, payload, n - 1);
    PickedTotal(frames, payload, got, n);
    if Complete(got, n) {
      PickedBytes(frames, payload, got, n);
      assert payload[..|payload|] == payload;
    }
  }

  /** A missing frame is stored; the payload comes out exactly when it was the last one. */
  lemma MissingStored(frames: seq<Fragment>, payload: seq<Byte>, got: set<nat>, i: nat)
    requires Cuts(frames, payload, 0) && |payload| <= MAX_PAYLOAD && i < |frames| && i !in got
    ensures Receive(Held(frames, got), frames[i]) ==
            if Complete(got + {i}, |frames|) then (Held(frames, got + {i}).(complete := true), Some(payload))
            else (Held(frames, got + {i}), None)
  {
    var s := Picked(frames, got, 0, |frames|);
    AdmitMissing(frames, payload, got, i);
    PickedInsert(frames, payload, got, i);
    InsertTotal(s, frames[i], Position(s, frames[i].offset));
    CountDecides(frames, payload, got + {i});
    assert Piece(frames, payload, i);
    if i > 0 {
      CutsOrdered(frames, payload, 0, i);
    }
  }

  predicate Indices(d: seq<nat>, n: nat) {
    forall i | 0 <= i < |d| :: d[i] < n
  }

  /** The frames delivered by a series of indices, in any order and with any repeats. */
  function Arrivals(frames: seq<Fragment>, d: seq<nat>): seq<Fragment>
    requires Indices(d, |frames|)
  {
    if d == [] then [] else Arrivals(frames, d[..|d| - 1]) + [frames[d[|d| - 1]]]
  }

  function Got(d: seq<nat>): set<nat> {
    set k | k in d
  }

  /** The frames delivered since the last time the set was complete. */
  function Since(d: seq<nat>, n: nat): set<nat>
    decreases |d|, 1
  {
    if d == [] || Completes(d, n) then {} else Since(d[..|d| - 1], n) + {d[|d| - 1]}
  }

  /** The last delivery completes the set, counted from the last time it was complete. */
  predicate Completes(d: seq<nat>, n: nat)
    decreases |d|, 0
  {
    d != [] && Complete(Since(d[..|d| - 1], n) + {d[|d| - 1]}, n)
  }

  lemma {:induction false} SinceFirst(d: seq<nat>, n: nat)
    requires n > 0
    ensures Since(d, n) <= Got(d) && !Complete(Since(d, n), n)
    ensures !Complete(Got(d), n) ==> Since(d, n) == Got(d)
  {
    if d == [] {
      assert 0 !in Since(d, n);
    } else {
      var init, i := d[..|d| - 1], d[|d| - 1];
      SinceFirst(init, n);
      assert Got(d) == Got(init) + {i} by { assert d == init + [i]; }
      assert 0 !in {};
    }
  }

  lemma DeliverOne(frames: seq<Fragment>, payload: seq<Byte>, got: set<nat>, i: nat)
    requires Cuts(frames, payload, 0) && |payload| <= MAX_PAYLOAD && i < |frames| && !Complete(got, |frames|)
    ensures var (q, out) := Receive(Held(frames, got), frames[i]);
            if Complete(got + {i}, |frames|) then Kept(q) == EMPTY && out == Some(payload)
            else Kept(q) == Held(frames, got + {i}) && out == None
  {
    if i in got {
      assert got + {i} == got;
      RepeatIgnored(frames, payload, got, i);
    } else {
      MissingStored(frames, payload, got, i);
    }
  }

  lemma ArriveOne(arrivals: seq<Fragment>, f: Fragment)
    ensures var (q, out) := Receive(After(arrivals), f);
            After(arrivals + [f]) == Kept(q) && Output(arrivals + [f]) == out
  {
    assert (arrivals + [f])[..|arrivals|] == arrivals;
  }

  lemma {:induction false} DeliverAll(frames: seq<Fragment>, payload: seq<Byte>, d: seq<nat>)
    requires Cuts(frames, payload, 0) && frames != [] && |payload| <= MAX_PAYLOAD && Indices(d, |frames|)
    ensures After(Arrivals(frames, d)) == Held(frames, Since(d, |frames|))
    ensures Output(Arrivals(frames, d)) == if Completes(d, |frames|) then Some(payload) else None
  {
    EmptyHeld(frames);
    if d != [] {
      var init, i := d[..|d| - 1], d[|d| - 1];
      DeliverAll(frames, payload, init);
      SinceFirst(init, |frames|);
      ArriveOne(Arrivals(frames, init), frames[i]);
      DeliverOne(frames, payload, Since(init, |frames|), i);
    }
  }

  lemma {:induction false} NothingPicked(frames: seq<Fragment>, hi: nat)
    requires hi <= |frames|
    ensures Picked(frames, {}, 0, hi) == [] && Reach(frames, {}, hi) == 0
  {
    if hi > 0 {
      NothingPicked(frames, hi - 1);
    }
  }

  lemma EmptyHeld(frames: seq<Fragment>)
    ensures Held(frames, {}) == EMPTY
  {
    NothingPicked(frames, |frames|);
  }

  /** Round trip: deliver the fragments of any payload of 1 to 65535 bytes in any order, with
      any repeats.  The payload comes out at exactly the arrivals that complete the set,
      counted from the arrival that last completed it. */
  lemma RoundTrip(payload: seq<Byte>, room: nat, d: seq<nat>)
    requires 1 <= |payload| <= MAX_PAYLOAD && room >= 8
    requires Indices(d, |Split(payload, room, 0)|)
    ensures var frames := Split(payload, room, 0);
            Output(Arrivals(frames, d)) == if Completes(d, |frames|) then Some(payload) else None
  {
    SplitCuts(payload, room, 0);
    DeliverAll(Split(payload, room, 0), payload, d);
  }

  /** As long as some fragment has not arrived, nothing comes out; the arrival of the last
      missing one brings out the payload. */
  lemma FirstCompletion(payload: seq<Byte>, room: nat, d: seq<nat>)
    requires 1 <= |payload| <= MAX_PAYLOAD && room >= 8 && d != []
    requires Indices(d, |Split(payload, room, 0)|)
    requires !Complete(Got(d[..|d| - 1]), |Split(payload, room, 0)|)
    ensures var frames := Split(payload, room, 0);
            Output(Arrivals(frames, d)) == if Complete(Got(d), |frames|) then Some(payload) else None
  {
    var frames := Split(payload, room, 0);
    RoundTrip(payload, room, d);
    SplitCuts(payload, room, 0);
    SinceFirst(d[..|d| - 1], |frames|);
    assert Got(d) == Got(d[..|d| - 1]) + {d[|d| - 1]} by { assert d == d[..|d| - 1] + [d[|d| - 1]]; }
  }

  /** Up to 65535 bytes the 16-bit, 8-byte-aligned offset field carries every offset
      exactly; nothing longer is ever returned, whatever arrives. */
  lemma OffsetsFit(payload: seq<Byte>, room: nat, f: Fragment)
    requires 1 <= |payload| <= MAX_PAYLOAD && room >= 8 && f in Split(payload, room, 0)
    ensures f.offset < 65536 && f.offset % 8 == 0
  {
    var frames := Split(payload, room, 0);
    SplitCuts(payload, room, 0);
    var j :| 0 <= j < |frames| && frames[j] == f;
    assert Piece(frames, payload, j);
    if j > 0 {
      assert Piece(frames, payload, j - 1);
    }
  }

  // ---- The receiver's header check ----

  /** process_capwap_proto insists on an Ethernet header's worth of bytes behind the CAPWAP
      header of every frame, fragments included, before it calls defrag. */
  predicate Pulls(f: Fragment) {
    |f.data| >= ETH_HLEN
  }

  predicate AllPull(s: seq<Fragment>) {
    forall i | 0 <= i < |s| :: Pulls(s[i])
  }

  /** The deliveries that survive that check. */
  function Surviving(frames: seq<Fragment>, d: seq<nat>): (r: seq<nat>)
    requires Indices(d, |frames|)
    ensures Indices(r, |frames|) && forall i | 0 <= i < |r| :: Pulls(frames[r[i]])
  {
    if d == [] then []
    else if Pulls(frames[d[|d| - 1]]) then Surviving(frames, d[..|d| - 1]) + [d[|d| - 1]]
    else Surviving(frames, d[..|d| - 1])
  }

  function WireOutput(frames: seq<Fragment>, d: seq<nat>): Option<seq<Byte>>
    requires Indices(d, |frames|)
  {
    if d == [] || !Pulls(frames[d[|d| - 1]]) then None else Output(Arrivals(frames, Surviving(frames, d)))
  }

  /** The size of the last fragment. */
  function TailSize(n: nat, room: nat): nat
    requires room >= 8
    decreases n
  {
    if n <= room then n else TailSize(n - Chunk(room), room)
  }

  /** What a sender can check: neither the full fragments nor the tail are below 14 bytes. */
  predicate FragmentsLongEnough(n: nat, room: nat)
    requires room >= 8
  {
    (n > room ==> room >= 16) && TailSize(n, room) >= ETH_HLEN
  }

  lemma {:induction false} SizesOf(payload: seq<Byte>, room: nat, offset: nat)
    requires room >= 8 && offset < |payload|
    ensures AllPull(Split(payload, room, offset)) <==> FragmentsLongEnough(|payload| - offset, room)
    decreases |payload| - offset
  {
    var s := Split(payload, room, offset);
    assert Pulls(s[0]) <==> |s[0].data| >= ETH_HLEN;
    if |payload| - offset > room {
      var rest := Split(payload, room, offset + Chunk(room));
      SizesOf(payload, room, offset + Chunk(room));
      assert s[1..] == rest;
      assert forall i | 0 < i < |s| :: s[i] == rest[i - 1];
      assert forall i | 0 <= i < |rest| :: rest[i] == s[i + 1];
    }
  }

  /** Through the receiver's header check a payload can come out at all, for some way of
      delivering its fragments, if and only if every fragment is long enough; and then it
      does so as in RoundTrip. */
  lemma EndToEnd(payload: seq<Byte>, room: nat, d: seq<nat>)
    requires 1 <= |payload| <= MAX_PAYLOAD && room >= 8
    requires Indices(d, |Split(payload, room, 0)|)
    ensures var frames := Split(payload, room, 0);
            WireOutput(frames, d) == if FragmentsLongEnough(|payload|, room) then Output(Arrivals(frames, d)) else None
  {
    var frames := Split(payload, room, 0);
    SizesOf(payload, room, 0);
    if FragmentsLongEnough(|payload|, room) {
      AllSurvive(frames, d);
    } else {
      var j: nat :| j < |frames| && !Pulls(frames[j]);
      var r := Surviving(frames, d);
      assert j !in Got(r);
      RoundTrip(payload, room, r);
      if r != [] {
        SinceFirst(r[..|r| - 1], |frames|);
        assert j !in Since(r[..|r| - 1], |frames|) + {r[|r| - 1]};
      }
    }
  }

  lemma {:induction false} AllSurvive(frames: seq<Fragment>, d: seq<nat>)
    requires Indices(d, |frames|) && AllPull(frames)
    ensures Surviving(frames, d) == d
    decreases |d|
  {
    if d != [] {
      AllSurvive(frames, d[..|d| - 1]);
      assert d == d[..|d| - 1] + [d[|d| - 1]];
    }
  }

  /** A concrete loss: 1401 bytes over a link with room for 1400 leave a one-byte tail. */
  lemma ShortTailIsLost(payload: seq<Byte>, d: seq<nat>)
    requires |payload| == 1401 && Indices(d, |Split(payload, 1400, 0)|)
    ensures WireOutput(Split(payload, 1400, 0), d) == None
  {
    assert TailSize(1401, 1400) == 1;
    EndToEnd(payload, 1400, d);
  }
}
