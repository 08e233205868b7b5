/** MPI task migration of the heterogeneous benchmark (benchmarks/adc757/heterogeneous_numerics.cpp). */
module Migration {
  import opened HeteroTasks
  import opened Markers
  import opened Order
  import opened Results
  import opened Sums

  type Byte = b: nat | b < 256

  const SIZEOF_DOUBLE := 8
  const MAX_VALUES_PER_TASK := 1_000_000

  // ---- What has to travel ----

  predicate Goes(task: Task, from: nat, to: nat) {
    task.baselineOwner == from && task.candidateOwner == to && Moves(task)
  }

  function Payload(task: Task): Byte {
    task.id % 251 + 1
  }

  function Block(task: Task, bytes: nat): (block: seq<Byte>)
    ensures |block| == bytes
  {
    seq(bytes, _ => Payload(task))
  }

  /** Blocks of the tasks among the first n that move between two ranks, in task order. */
  function Packed(tasks: seq<Task>, from: nat, to: nat, bytes: nat, n: nat): seq<Byte>
    requires n <= |tasks|
  {
    if n == 0 then []
    else Packed(tasks, from, to, bytes, n - 1) + if Goes(tasks[n - 1], from, to) then Block(tasks[n - 1], bytes) else []
  }

  function Lane(tasks: seq<Task>, bytes: nat, from: nat, to: nat): seq<Byte> {
    Packed(tasks, from, to, bytes, |tasks|)
  }

  /** Start of the segment of each destination in the send buffer. */
  function SendOffset(tasks: seq<Task>, bytes: nat, from: nat, to: nat): nat {
    if to == 0 then 0 else SendOffset(tasks, bytes, from, to - 1) + |Lane(tasks, bytes, from, to - 1)|
  }

  /** Start of the segment of each source in the receive buffer. */
  function ReceiveOffset(tasks: seq<Task>, bytes: nat, from: nat, to: nat): nat {
    if from == 0 then 0 else ReceiveOffset(tasks, bytes, from - 1, to) + |Lane(tasks, bytes, from - 1, to)|
  }

  function Outgoing(tasks: seq<Task>, bytes: nat, from: nat, ranks: nat): (buffer: seq<Byte>)
    ensures |buffer| == SendOffset(tasks, bytes, from, ranks)
  {
    if ranks == 0 then []
    else Outgoing(tasks, bytes, from, ranks - 1) + Lane(tasks, bytes, from, ranks - 1)
  }

  function Incoming(tasks: seq<Task>, bytes: nat, to: nat, ranks: nat): (buffer: seq<Byte>)
    ensures |buffer| == ReceiveOffset(tasks, bytes, ranks, to)
  {
    if ranks == 0 then []
    else Incoming(tasks, bytes, to, ranks - 1) + Lane(tasks, bytes, ranks - 1, to)
  }

  // ---- Segments ----

  lemma {:induction false} SendOffsetsGrow(tasks: seq<Task>, bytes: nat, from: nat, a: nat, b: nat)
    requires a < b
    ensures SendOffset(tasks, bytes, from, a) + |Lane(tasks, bytes, from, a)| <= SendOffset(tasks, bytes, from, b)
  {
    if a < b - 1 { SendOffsetsGrow(tasks, bytes, from, a, b - 1); }
  }

  lemma {:induction false} PackedGrows(tasks: seq<Task>, from: nat, to: nat, bytes: nat, i: nat, n: nat)
    requires i <= n <= |tasks|
    ensures |Packed(tasks, from, to, bytes, i)| <= |Packed(tasks, from, to, bytes, n)|
  {
    if i < n { PackedGrows(tasks, from, to, bytes, i, n - 1); }
  }

  /** The next block of a destination stays inside that destination's segment. */
  lemma CursorStaysInside(tasks: seq<Task>, from: nat, to: nat, bytes: nat, i: nat)
    requires i < |tasks| && Goes(tasks[i], from, to)
    ensures |Packed(tasks, from, to, bytes, i)| + bytes <= |Lane(tasks, bytes, from, to)|
  {
    PackedGrows(tasks, from, to, bytes, i + 1, |tasks|);
  }

  /** The send buffer after the first i tasks: each destination's segment starts with its packed blocks. */
  ghost predicate Filled(buffer: seq<Byte>, tasks: seq<Task>, bytes: nat, from: nat, ranks: nat, i: nat)
    requires i <= |tasks|
  {
    && |buffer| == SendOffset(tasks, bytes, from, ranks)
    && forall to: nat :: to < ranks ==> SegmentHolds(buffer, tasks, bytes, from, to, i)
  }

  ghost predicate SegmentHolds(buffer: seq<Byte>, tasks: seq<Task>, bytes: nat, from: nat, to: nat, i: nat)
    requires i <= |tasks|
  {
    var start := SendOffset(tasks, bytes, from, to);
    var packed := Packed(tasks, from, to, bytes, i);
    start + |packed| <= |buffer| && buffer[start..start + |packed|] == packed
  }

  /** buffer with the bytes from start on overwritten by block. */
  function Written(buffer: seq<Byte>, start: nat, block: seq<Byte>): (r: seq<Byte>)
    requires start + |block| <= |buffer|
    ensures |r| == |buffer|
  {
    buffer[..start] + block + buffer[start + |block|..]
  }

  lemma SegmentElsewhere(buffer: seq<Byte>, start: nat, block: seq<Byte>, low: nat, high: nat)
    requires start + |block| <= |buffer| && low <= high <= |buffer|
    requires high <= start || start + |block| <= low
    ensures Written(buffer, start, block)[low..high] == buffer[low..high]
  {}

  lemma SegmentExtended(buffer: seq<Byte>, low: nat, start: nat, block: seq<Byte>)
    requires low <= start && start + |block| <= |buffer|
    ensures Written(buffer, start, block)[low..start + |block|] == buffer[low..start] + block
  {}

  lemma SegmentsDisjoint(tasks: seq<Task>, bytes: nat, from: nat, a: nat, b: nat, i: nat)
    requires a != b && i <= |tasks|
    ensures || SendOffset(tasks, bytes, from, a) + |Packed(tasks, from, a, bytes, i)| <= SendOffset(tasks, bytes, from, b)
            || SendOffset(tasks, bytes, from, b) + |Lane(tasks, bytes, from, b)| <= SendOffset(tasks, bytes, from, a)
  {
    PackedGrows(tasks, from, a, bytes, i, |tasks|);
    if a < b {
      SendOffsetsGrow(tasks, bytes, from, a, b);
    } else {
      SendOffsetsGrow(tasks, bytes, from, b, a);
    }
  }

  lemma FilledAtStart(buffer: seq<Byte>, tasks: seq<Task>, bytes: nat, from: nat, ranks: nat)
    requires |buffer| == SendOffset(tasks, bytes, from, ranks)
    ensures Filled(buffer, tasks, bytes, from, ranks, 0)
  {
    forall to: nat | to < ranks
      ensures SegmentHolds(buffer, tasks, bytes, from, to, 0)
    {
      SendOffsetsGrow(tasks, bytes, from, to, ranks);
    }
  }

  lemma FilledStep(buffer: seq<Byte>, tasks: seq<Task>, bytes: nat, from: nat, ranks: nat, i: nat, to: nat)
    requires i < |tasks| && to < ranks && Goes(tasks[i], from, to)
    requires Filled(buffer, tasks, bytes, from, ranks, i)
    ensures var start := SendOffset(tasks, bytes, from, to) + |Packed(tasks, from, to, bytes, i)|;
            && start + bytes <= |buffer|
            && start + bytes <= SendOffset(tasks, bytes, from, to + 1)
            && Filled(Written(buffer, start, Block(tasks[i], bytes)), tasks, bytes, from, ranks, i + 1)
  {
    var low := SendOffset(tasks, bytes, from, to);
    var start := low + |Packed(tasks, from, to, bytes, i)|;
    CursorStaysInside(tasks, from, to, bytes, i);
    SendOffsetsGrow(tasks, bytes, from, to, ranks);
    var next, after := Written(buffer, start, Block(tasks[i], bytes)), i + 1;
    forall d: nat | d < ranks
      ensures SegmentHolds(next, tasks, bytes, from, d, after)
    {
      assert SegmentHolds(buffer, tasks, bytes, from, d, i);
      if d == to {
        SegmentExtended(buffer, low, start, Block(tasks[i], bytes));
      } else {
        var begin := SendOffset(tasks, bytes, from, d);
        SegmentsDisjoint(tasks, bytes, from, d, to, i);
        SegmentElsewhere(buffer, start, Block(tasks[i], bytes), begin, begin + |Packed(tasks, from, d, bytes, i)|);
      }
    }
  }

  lemma FilledSkip(buffer: seq<Byte>, tasks: seq<Task>, bytes: nat, from: nat, ranks: nat, i: nat)
    requires i < |tasks| && Filled(buffer, tasks, bytes, from, ranks, i)
    requires forall to: nat :: to < ranks ==> !Goes(tasks[i], from, to)
    ensures Filled(buffer, tasks, bytes, from, ranks, i + 1)
  {
    var after := i + 1;
    forall to: nat | to < ranks
      ensures SegmentHolds(buffer, tasks, bytes, from, to, after)
    {
      assert SegmentHolds(buffer, tasks, bytes, from, to, i);
    }
  }

  /** Once all tasks are packed the segments are the whole buffer. */
  lemma {:induction false} FilledCompletely(buffer: seq<Byte>, tasks: seq<Task>, bytes: nat, from: nat, ranks: nat)
    requires |buffer| == SendOffset(tasks, bytes, from, ranks)
    requires forall to: nat :: to < ranks ==> SegmentHolds(buffer, tasks, bytes, from, to, |tasks|)
    ensures buffer == Outgoing(tasks, bytes, from, ranks)
    decreases ranks
  {
    if ranks > 0 {
      var start := SendOffset(tasks, bytes, from, ranks - 1);
      var front := buffer[..start];
      forall to: nat | to < ranks - 1
        ensures SegmentHolds(front, tasks, bytes, from, to, |tasks|)
      {
        assert SegmentHolds(buffer, tasks, bytes, from, to, |tasks|);
        SendOffsetsGrow(tasks, bytes, from, to, ranks - 1);
        var begin, end := SendOffset(tasks, bytes, from, to), SendOffset(tasks, bytes, from, to) + |Lane(tasks, bytes, from, to)|;
        assert front[begin..end] == buffer[begin..end];
      }
      FilledCompletely(front, tasks, bytes, from, ranks - 1);
      assert SegmentHolds(buffer, tasks, bytes, from, ranks - 1, |tasks|);
      assert buffer == front + buffer[start..];
    }
  }

  // ---- The plan of one rank ----

  function LaneCounts(tasks: seq<Task>, bytes: nat, from: nat, ranks: nat, n: nat): (counts: seq<int>)
    requires n <= |tasks|
    ensures |counts| == ranks
    ensures forall to: nat :: to < ranks ==> counts[to] == |Packed(tasks, from, to, bytes, n)|
  {
    seq(ranks, to requires 0 <= to => |Packed(tasks, from, to, bytes, n)|)
  }

  function PrefixSum(counts: seq<int>, n: nat): int
    requires n <= |counts|
  {
    if n == 0 then 0 else PrefixSum(counts, n - 1) + counts[n - 1]
  }

  /** The first n displacements are the prefix sums of the counts. */
  ghost predicate Displaced(displacements: seq<int>, counts: seq<int>, n: nat) {
    n <= |displacements| == |counts| && forall k :: 0 <= k < n ==> displacements[k] == PrefixSum(counts, k)
  }

  /** What one rank hands to MPI_Alltoallv. */
  datatype SendSide = SendSide(buffer: seq<Byte>, counts: seq<int>, displacements: seq<int>)

  /** The side offers an in-range segment to rank `to`. */
  predicate Offers(side: SendSide, to: nat) {
    && to < |side.counts| && to < |side.displacements|
    && 0 <= side.displacements[to] <= side.displacements[to] + side.counts[to] <= |side.buffer|
  }

  function Segment(side: SendSide, to: nat): (segment: seq<Byte>)
    requires Offers(side, to)
    ensures |segment| == side.counts[to]
  {
    side.buffer[side.displacements[to]..side.displacements[to] + side.counts[to]]
  }

  /** The segments that the first n sources send to one rank, in source order. */
  function Gathered(world: seq<SendSide>, to: nat, n: nat): seq<Byte>
    requires n <= |world| && forall s :: 0 <= s < n ==> Offers(world[s], to)
  {
    if n == 0 then [] else Gathered(world, to, n - 1) + Segment(world[n - 1], to)
  }

  /** Each cursor stands behind what its destination's segment already holds. */
  ghost predicate CursorsAt(cursors: seq<int>, tasks: seq<Task>, bytes: nat, from: nat, ranks: nat, i: nat)
    requires i <= |tasks|
  {
    && |cursors| == ranks
    && forall to: nat :: to < ranks ==>
         cursors[to] == SendOffset(tasks, bytes, from, to) + |Packed(tasks, from, to, bytes, i)|
  }

  lemma CursorStep(cursors: seq<int>, tasks: seq<Task>, bytes: nat, from: nat, ranks: nat, i: nat, to: nat)
    requires i < |tasks| && to < ranks && Goes(tasks[i], from, to)
    requires CursorsAt(cursors, tasks, bytes, from, ranks, i)
    ensures CursorsAt(cursors[to := cursors[to] + bytes], tasks, bytes, from, ranks, i + 1)
  {}

  /** The send buffer and the cursors after i tasks. */
  ghost predicate Packing(buffer: seq<Byte>, cursors: seq<int>, tasks: seq<Task>, bytes: nat, from: nat, ranks: nat, i: nat)
    requires i <= |tasks|
  {
    forall mark: int {:trigger Opened(mark)} :: Opened(mark) ==>
      CursorsAt(cursors, tasks, bytes, from, ranks, i) && Filled(buffer, tasks, bytes, from, ranks, i)
  }

  lemma PackingStart(buffer: seq<Byte>, cursors: seq<int>, tasks: seq<Task>, bytes: nat, from: nat, ranks: nat)
    requires |cursors| == ranks && |buffer| == SendOffset(tasks, bytes, from, ranks)
    requires forall to: nat :: to < ranks ==> cursors[to] == SendOffset(tasks, bytes, from, to)
    ensures Packing(buffer, cursors, tasks, bytes, from, ranks, 0)
  {
    FilledAtStart(buffer, tasks, bytes, from, ranks);
  }

  /** Packing a task that moves writes inside its destination's segment. */
  lemma PackingStep(buffer: seq<Byte>, cursors: seq<int>, tasks: seq<Task>, bytes: nat, from: nat, ranks: nat, i: nat,
                    to: nat)
    requires i < |tasks| && to < ranks && Goes(tasks[i], from, to)
    requires Packing(buffer, cursors, tasks, bytes, from, ranks, i)
    ensures |cursors| == ranks && 0 <= cursors[to] <= cursors[to] + bytes <= |buffer|
    ensures SendOffset(tasks, bytes, from, to) <= cursors[to] <= cursors[to] + bytes
            <= SendOffset(tasks, bytes, from, to + 1)
    ensures Packing(Written(buffer, cursors[to], Block(tasks[i], bytes)), cursors[to := cursors[to] + bytes],
                    tasks, bytes, from, ranks, i + 1)
  {
    assert Opened(0);
    FilledStep(buffer, tasks, bytes, from, ranks, i, to);
    CursorStep(cursors, tasks, bytes, from, ranks, i, to);
  }

  lemma PackingSkip(buffer: seq<Byte>, cursors: seq<int>, tasks: seq<Task>, bytes: nat, from: nat, ranks: nat, i: nat)
    requires i < |tasks| && forall to: nat :: to < ranks ==> !Goes(tasks[i], from, to)
    requires Packing(buffer, cursors, tasks, bytes, from, ranks, i)
    ensures Packing(buffer, cursors, tasks, bytes, from, ranks, i + 1)
  {
    assert Opened(0);
    FilledSkip(buffer, tasks, bytes, from, ranks, i);
  }

  /** Every cursor ends at the next displacement and the buffer is full. */
  lemma PackingEnd(buffer: seq<Byte>, cursors: seq<int>, tasks: seq<Task>, bytes: nat, from: nat, ranks: nat)
    requires Packing(buffer, cursors, tasks, bytes, from, ranks, |tasks|)
    ensures buffer == Outgoing(tasks, bytes, from, ranks)
    ensures |cursors| == ranks && forall to: nat :: to < ranks ==> cursors[to] == SendOffset(tasks, bytes, from, to + 1)
  {
    assert Opened(0);
    FilledCompletely(buffer, tasks, bytes, from, ranks);
  }

  class MigrationPlan {
    const me: nat
    const ranks: nat
    var sendCounts: seq<int>
    var receiveCounts: seq<int>
    var sendDisplacements: seq<int>
    var receiveDisplacements: seq<int>
    var send: array<Byte>
    var receive: array<Byte>

    constructor (me: nat, ranks: nat)
      requires me < ranks
      ensures this.me == me && this.ranks == ranks
      ensures fresh(send) && fresh(receive)
    {
      this.me, this.ranks := me, ranks;
      sendCounts, receiveCounts := seq(ranks, _ => 0), seq(ranks, _ => 0);
      sendDisplacements, receiveDisplacements := seq(ranks, _ => 0), seq(ranks, _ => 0);
      send, receive := new Byte[0], new Byte[0];
    }

    /** First half of the constructor: bytes for each destination, refusing counts beyond int. */
    method CountSends(tasks: seq<Task>, valuesPerTask: nat) returns (r: Result<nat, Overflow>)
      requires forall t :: 0 <= t < |tasks| ==> 0 <= tasks[t].candidateOwner < ranks
      modifies this`sendCounts
      ensures var bytes := valuesPerTask * SIZEOF_DOUBLE;
              && (r == Err(PayloadCount) <==> bytes > INT_MAX)
              && (r == Err(SendCount) <==>
                    bytes <= INT_MAX && exists to: nat :: to < ranks && |Lane(tasks, bytes, me, to)| > INT_MAX)
              && (r.Ok? ==> r.value == bytes && sendCounts == LaneCounts(tasks, bytes, me, ranks, |tasks|))
              && (r.Err? ==> r.error.PayloadCount? || r.error.SendCount?)
    {
      var bytes := valuesPerTask * SIZEOF_DOUBLE;
      if bytes > INT_MAX {
        return Err(PayloadCount);
      }
      sendCounts := seq(ranks, _ => 0);
      for i := 0 to |tasks|
        invariant sendCounts == LaneCounts(tasks, bytes, me, ranks, i)
        invariant forall to :: 0 <= to < ranks ==> sendCounts[to] <= INT_MAX
      {
        if tasks[i].baselineOwner == me && Moves(tasks[i]) {
          var to: nat := tasks[i].candidateOwner;
          if sendCounts[to] > INT_MAX - bytes {
            CursorStaysInside(tasks, me, to, bytes, i);
            return Err(SendCount);
          }
          sendCounts := sendCounts[to := sendCounts[to] + bytes];
        }
      }
      return Ok(bytes);
    }

    /** MPI_Alltoall of one int a rank: entry s is what rank s counted for this rank. */
    method AcceptCounts(counts: seq<seq<int>>)
      requires me < ranks == |counts| && forall s :: 0 <= s < ranks ==> |counts[s]| == ranks
      modifies this`receiveCounts
      ensures |receiveCounts| == ranks && forall s :: 0 <= s < ranks ==> receiveCounts[s] == counts[s][me]
    {
      receiveCounts := seq(ranks, _ => 0);
      for s := 0 to ranks
        invariant |receiveCounts| == ranks && forall k :: 0 <= k < s ==> receiveCounts[k] == counts[k][me]
      {
        receiveCounts := receiveCounts[s := counts[s][me]];
      }
    }

    /** Second half of the constructor: prefix sums and buffers of their totals. */
    method Displace()
      requires 0 < ranks && |sendCounts| == |receiveCounts| == ranks
      requires 0 <= PrefixSum(sendCounts, ranks) && 0 <= PrefixSum(receiveCounts, ranks)
      modifies this`sendDisplacements, this`receiveDisplacements, this`send, this`receive
      ensures |sendDisplacements| == |receiveDisplacements| == ranks
      ensures Displaced(sendDisplacements, sendCounts, ranks)
      ensures Displaced(receiveDisplacements, receiveCounts, ranks)
      ensures fresh(send) && send.Length == PrefixSum(sendCounts, ranks)
      ensures fresh(receive) && receive.Length == PrefixSum(receiveCounts, ranks)
      ensures send != receive
    {
      sendDisplacements, receiveDisplacements := seq(ranks, _ => 0), seq(ranks, _ => 0);
      for rank := 1 to ranks
        invariant Displaced(sendDisplacements, sendCounts, rank) && |sendDisplacements| == ranks
        invariant Displaced(receiveDisplacements, receiveCounts, rank) && |receiveDisplacements| == ranks
      {
        sendDisplacements := sendDisplacements[rank := sendDisplacements[rank - 1] + sendCounts[rank - 1]];
        receiveDisplacements :=
          receiveDisplacements[rank := receiveDisplacements[rank - 1] + receiveCounts[rank - 1]];
      }
      var sendBytes := sendDisplacements[ranks - 1] + sendCounts[ranks - 1];
      var receiveBytes := receiveDisplacements[ranks - 1] + receiveCounts[ranks - 1];
      send := new Byte[sendBytes];
      receive := new Byte[receiveBytes];
    }

    /** Fill the send buffer through one moving cursor a destination. */
    method Pack(tasks: seq<Task>, bytes: nat)
      requires |sendDisplacements| == ranks && send.Length == SendOffset(tasks, bytes, me, ranks)
      requires forall to: nat :: to < ranks ==> sendDisplacements[to] == SendOffset(tasks, bytes, me, to)
      requires forall t :: 0 <= t < |tasks| ==> 0 <= tasks[t].candidateOwner < ranks
      modifies send
      ensures send[..] == Outgoing(tasks, bytes, me, ranks)
    {
      var cursors := sendDisplacements;
      PackingStart(send[..], cursors, tasks, bytes, me, ranks);
      for i := 0 to |tasks|
        invariant Packing(send[..], cursors, tasks, bytes, me, ranks, i)
      {
        if tasks[i].baselineOwner == me && Moves(tasks[i]) {
          var to: nat := tasks[i].candidateOwner;
          PackingStep(send[..], cursors, tasks, bytes, me, ranks, i, to);
          FillN(send, cursors[to], bytes, tasks[i].id % 251 + 1);
          cursors := cursors[to := cursors[to] + bytes];
        } else {
          PackingSkip(send[..], cursors, tasks, bytes, me, ranks, i);
        }
      }
      PackingEnd(send[..], cursors, tasks, bytes, me, ranks);
      assert forall to: nat :: to < ranks ==> cursors[to] == SendOffset(tasks, bytes, me, to + 1);
    }

    /** MPI_Alltoallv: source s lands at receiveDisplacements[s]. */
    method Migrate(world: seq<SendSide>)
      requires |world| == ranks == |receiveCounts| == |receiveDisplacements|
      requires forall s :: 0 <= s < |world| ==> Offers(world[s], me) && receiveCounts[s] == world[s].counts[me]
      requires Displaced(receiveDisplacements, receiveCounts, ranks)
      requires receive.Length == PrefixSum(receiveCounts, ranks)
      modifies receive
      ensures receive[..] == Gathered(world, me, ranks)
    {
      for s := 0 to ranks
        invariant 0 <= PrefixSum(receiveCounts, s) <= receive.Length
        invariant receive[..PrefixSum(receiveCounts, s)] == Gathered(world, me, s)
      {
        PrefixSumsGrow(receiveCounts, s + 1, ranks);
        CopyInto(receive, receiveDisplacements[s], Segment(world[s], me));
      }
    }
  }

  lemma {:induction false} PrefixSumsGrow(counts: seq<int>, a: nat, b: nat)
    requires a <= b <= |counts| && forall k :: 0 <= k < |counts| ==> 0 <= counts[k]
    ensures PrefixSum(counts, a) <= PrefixSum(counts, b)
  {
    if a < b { PrefixSumsGrow(counts, a, b - 1); }
  }

  method FillN(a: array<Byte>, start: int, n: nat, value: Byte)
    requires 0 <= start <= start + n <= a.Length
    modifies a
    ensures a[..] == Written(old(a[..]), start, seq(n, _ => value))
  {
    for j := 0 to n
      invariant forall p :: 0 <= p < a.Length ==>
        a[p] == if start <= p < start + j then value else old(a[p])
    {
      a[start + j] := value;
    }
  }

  method CopyInto(a: array<Byte>, start: int, values: seq<Byte>)
    requires 0 <= start <= start + |values| <= a.Length
    modifies a
    ensures a[..] == Written(old(a[..]), start, values)
  {
    for j := 0 to |values|
      invariant forall p :: 0 <= p < a.Length ==>
        a[p] == if start <= p < start + j then values[p - start] else old(a[p])
    {
      a[start + j] := values[j];
    }
  }

  // ---- The exchange ----

  function Offsets(tasks: seq<Task>, bytes: nat, from: nat, ranks: nat): (offsets: seq<int>)
    ensures |offsets| == ranks
    ensures forall to: nat :: to < ranks ==> offsets[to] == SendOffset(tasks, bytes, from, to)
  {
    seq(ranks, to requires 0 <= to => SendOffset(tasks, bytes, from, to))
  }

  /** What the plan of rank `from` hands to the collective. */
  function SideOf(tasks: seq<Task>, bytes: nat, from: nat, ranks: nat): SendSide {
    SendSide(Outgoing(tasks, bytes, from, ranks), LaneCounts(tasks, bytes, from, ranks, |tasks|),
             Offsets(tasks, bytes, from, ranks))
  }

  function World(tasks: seq<Task>, bytes: nat, ranks: nat): (world: seq<SendSide>)
    ensures |world| == ranks
    ensures forall s: nat :: s < ranks ==> world[s] == SideOf(tasks, bytes, s, ranks)
  {
    seq(ranks, s requires 0 <= s => SideOf(tasks, bytes, s, ranks))
  }

  lemma {:induction false} OutgoingSegment(tasks: seq<Task>, bytes: nat, from: nat, to: nat, ranks: nat)
    requires to < ranks
    ensures var start := SendOffset(tasks, bytes, from, to);
            && start + |Lane(tasks, bytes, from, to)| <= |Outgoing(tasks, bytes, from, ranks)|
            && Outgoing(tasks, bytes, from, ranks)[start..start + |Lane(tasks, bytes, from, to)|]
               == Lane(tasks, bytes, from, to)
    decreases ranks
  {
    if to < ranks - 1 {
      OutgoingSegment(tasks, bytes, from, to, ranks - 1);
    }
  }

  lemma SideOffers(tasks: seq<Task>, bytes: nat, from: nat, to: nat, ranks: nat)
    requires to < ranks
    ensures Offers(SideOf(tasks, bytes, from, ranks), to)
    ensures Segment(SideOf(tasks, bytes, from, ranks), to) == Lane(tasks, bytes, from, to)
  {
    OutgoingSegment(tasks, bytes, from, to, ranks);
  }

  lemma {:induction false} GatheredLanes(world: seq<SendSide>, tasks: seq<Task>, bytes: nat, to: nat, n: nat)
    requires n <= |world|
    requires forall s :: 0 <= s < n ==> Offers(world[s], to) && Segment(world[s], to) == Lane(tasks, bytes, s, to)
    ensures Gathered(world, to, n) == Incoming(tasks, bytes, to, n)
  {
    if n > 0 { GatheredLanes(world, tasks, bytes, to, n - 1); }
  }

  /** The collective turns the packed send buffers into the concatenation of the lanes towards each rank. */
  lemma ExchangeDelivers(tasks: seq<Task>, bytes: nat, to: nat, ranks: nat)
    requires to < ranks
    ensures forall s :: 0 <= s < ranks ==> Offers(World(tasks, bytes, ranks)[s], to)
    ensures Gathered(World(tasks, bytes, ranks), to, ranks) == Incoming(tasks, bytes, to, ranks)
  {
    forall s | 0 <= s < ranks
      ensures Offers(World(tasks, bytes, ranks)[s], to)
      ensures Segment(World(tasks, bytes, ranks)[s], to) == Lane(tasks, bytes, s, to)
    {
      SideOffers(tasks, bytes, s, to, ranks);
    }
    GatheredLanes(World(tasks, bytes, ranks), tasks, bytes, to, ranks);
  }

  lemma {:induction false} SendPrefix(tasks: seq<Task>, bytes: nat, from: nat, ranks: nat, n: nat)
    requires n <= ranks
    ensures PrefixSum(LaneCounts(tasks, bytes, from, ranks, |tasks|), n) == SendOffset(tasks, bytes, from, n)
  {
    if n > 0 { SendPrefix(tasks, bytes, from, ranks, n - 1); }
  }

  /** The row of counts a rank receives from the all-to-all of the counts. */
  function ReceivedRow(tasks: seq<Task>, bytes: nat, to: nat, ranks: nat): (row: seq<int>)
    ensures |row| == ranks
    ensures forall s: nat :: s < ranks ==> row[s] == |Lane(tasks, bytes, s, to)|
  {
    seq(ranks, s requires 0 <= s => |Lane(tasks, bytes, s, to)|)
  }

  /** The counts that every rank hands to the all-to-all. */
  function CountMatrix(world: seq<SendSide>): (counts: seq<seq<int>>)
    ensures |counts| == |world|
    ensures forall s :: 0 <= s < |world| ==> counts[s] == world[s].counts
  {
    seq(|world|, s requires 0 <= s < |world| => world[s].counts)
  }

  /** That row is a column of what all ranks counted: the all-to-all transposes the matrix. */
  lemma ReceivedRowIsTransposed(tasks: seq<Task>, bytes: nat, to: nat, ranks: nat, s: nat)
    requires to < ranks && s < ranks
    ensures var counts := CountMatrix(World(tasks, bytes, ranks));
            |counts[s]| == ranks && ReceivedRow(tasks, bytes, to, ranks)[s] == counts[s][to]
  {
    assert World(tasks, bytes, ranks)[s] == SideOf(tasks, bytes, s, ranks);
  }

  lemma {:induction false} ReceivePrefix(tasks: seq<Task>, bytes: nat, to: nat, ranks: nat, n: nat)
    requires n <= ranks
    ensures PrefixSum(ReceivedRow(tasks, bytes, to, ranks), n) == ReceiveOffset(tasks, bytes, n, to)
  {
    if n > 0 { ReceivePrefix(tasks, bytes, to, ranks, n - 1); }
  }

  /** Prefix sums of the two count rows are the offsets of the two buffers. */
  lemma CountsAreOffsets(tasks: seq<Task>, bytes: nat, me: nat, ranks: nat)
    ensures forall n :: 0 <= n <= ranks ==>
              PrefixSum(LaneCounts(tasks, bytes, me, ranks, |tasks|), n) == SendOffset(tasks, bytes, me, n)
    ensures PrefixSum(ReceivedRow(tasks, bytes, me, ranks), ranks) == ReceiveOffset(tasks, bytes, ranks, me)
  {
    forall n | 0 <= n <= ranks
      ensures PrefixSum(LaneCounts(tasks, bytes, me, ranks, |tasks|), n) == SendOffset(tasks, bytes, me, n)
    {
      SendPrefix(tasks, bytes, me, ranks, n);
    }
    ReceivePrefix(tasks, bytes, me, ranks, ranks);
  }

  /** The count exchange, the displacements and the packing of a plan that has counted its sends. */
  method PreparePlan(plan: MigrationPlan, tasks: seq<Task>, bytes: nat)
    requires plan.me < plan.ranks && forall t :: 0 <= t < |tasks| ==> 0 <= tasks[t].candidateOwner < plan.ranks
    requires plan.sendCounts == LaneCounts(tasks, bytes, plan.me, plan.ranks, |tasks|)
    modifies plan
    ensures fresh(plan.send) && fresh(plan.receive) && plan.send != plan.receive
    ensures SendSide(plan.send[..], plan.sendCounts, plan.sendDisplacements) == SideOf(tasks, bytes, plan.me, plan.ranks)
    ensures plan.receiveCounts == ReceivedRow(tasks, bytes, plan.me, plan.ranks)
    ensures Displaced(plan.receiveDisplacements, plan.receiveCounts, plan.ranks)
    ensures |plan.receiveDisplacements| == plan.ranks
    ensures plan.receive.Length == PrefixSum(plan.receiveCounts, plan.ranks)
  {
    var me, ranks := plan.me, plan.ranks;
    CountsAreOffsets(tasks, bytes, me, ranks);
    var counts := CountMatrix(World(tasks, bytes, ranks));
    forall s: nat | s < ranks
      ensures |counts[s]| == ranks && counts[s][me] == ReceivedRow(tasks, bytes, me, ranks)[s]
    {
      ReceivedRowIsTransposed(tasks, bytes, me, ranks, s);
    }
    plan.AcceptCounts(counts);
    assert plan.receiveCounts == ReceivedRow(tasks, bytes, me, ranks);
    plan.Displace();
    plan.Pack(tasks, bytes);
    assert plan.sendDisplacements == Offsets(tasks, bytes, me, ranks);
  }

  /** One rank's whole migration: counting, the count exchange, packing and the byte exchange fit together,
      and the receive buffer ends as the lanes of all sources in rank order. */
  method RunRank(tasks: seq<Task>, valuesPerTask: nat, me: nat, ranks: nat)
    returns (r: Result<nat, Overflow>, plan: MigrationPlan)
    requires me < ranks && forall t :: 0 <= t < |tasks| ==> 0 <= tasks[t].candidateOwner < ranks
    ensures var bytes := valuesPerTask * 8;
            && (r == Err(PayloadCount) <==> bytes > 2147483647)
            && (r == Err(SendCount) <==>
                  bytes <= 2147483647 && exists to: nat :: to < ranks && |Lane(tasks, bytes, me, to)| > 2147483647)
            && (r.Err? ==> r.error.PayloadCount? || r.error.SendCount?)
            && (r.Ok? ==> r.value == bytes)
    // What the rank hands to the exchange is its part of the world that every other rank receives from.
    ensures r.Ok? ==>
              SendSide(plan.send[..], plan.sendCounts, plan.sendDisplacements) == SideOf(tasks, r.value, me, ranks)
    ensures r.Ok? ==> plan.receive[..] == Incoming(tasks, r.value, me, ranks)
  {
    plan := new MigrationPlan(me, ranks);
    r := plan.CountSends(tasks, valuesPerTask);
    if r.Err? {
      return;
    }
    var bytes := r.value;
    PreparePlan(plan, tasks, bytes);
    ExchangeDelivers(tasks, bytes, me, ranks);
    plan.Migrate(World(tasks, bytes, ranks));
  }

  /** On two or more ranks scheduled tasks within the option cap always migrate. */
  method MigrateScheduled(tasks: seq<Task>, valuesPerTask: nat, me: nat, ranks: nat) returns (plan: MigrationPlan)
    requires me < ranks && 2 <= ranks && Scheduled(tasks, ranks) && valuesPerTask <= 1_000_000
    ensures plan.receive[..] == Incoming(tasks, valuesPerTask * 8, me, ranks)
  {
    OwnersBothInRange(tasks, ranks);
    NoSendOverflow(tasks, ranks, valuesPerTask, me);
    var r;
    r, plan := RunRank(tasks, valuesPerTask, me, ranks);
    assert r.Ok?;
  }

  // ---- Every moved block arrives ----

  lemma {:induction false} PackedBlock(tasks: seq<Task>, from: nat, to: nat, bytes: nat, t: nat, n: nat)
    requires t < n <= |tasks| && Goes(tasks[t], from, to)
    ensures var start := |Packed(tasks, from, to, bytes, t)|;
            && start + bytes <= |Packed(tasks, from, to, bytes, n)|
            && Packed(tasks, from, to, bytes, n)[start..start + bytes] == Block(tasks[t], bytes)
    decreases n
  {
    if t < n - 1 {
      PackedBlock(tasks, from, to, bytes, t, n - 1);
    }
  }

  lemma {:induction false} IncomingSegment(tasks: seq<Task>, bytes: nat, from: nat, to: nat, ranks: nat)
    requires from < ranks
    ensures var start := ReceiveOffset(tasks, bytes, from, to);
            && start + |Lane(tasks, bytes, from, to)| <= |Incoming(tasks, bytes, to, ranks)|
            && Incoming(tasks, bytes, to, ranks)[start..start + |Lane(tasks, bytes, from, to)|]
               == Lane(tasks, bytes, from, to)
    decreases ranks
  {
    if from < ranks - 1 {
      IncomingSegment(tasks, bytes, from, to, ranks - 1);
    }
  }

  /** Where the block of a moved task starts on its candidate owner: behind the blocks of lower ranks and of earlier
      tasks of its own source. */
  function ArrivalOf(tasks: seq<Task>, bytes: nat, t: nat): nat
    requires t < |tasks| && 0 <= tasks[t].candidateOwner
  {
    var from, to: nat := tasks[t].baselineOwner, tasks[t].candidateOwner;
    ReceiveOffset(tasks, bytes, from, to) + |Packed(tasks, from, to, bytes, t)|
  }

  ghost predicate Travels(tasks: seq<Task>, ranks: nat, t: nat) {
    && t < |tasks| && Moves(tasks[t])
    && tasks[t].baselineOwner < ranks && 0 <= tasks[t].candidateOwner < ranks
  }

  /** The bytes that arrive for a moved task name it: each is one more than the task's number modulo 251. */
  lemma MovedBlockArrives(tasks: seq<Task>, bytes: nat, ranks: nat, t: nat)
    requires Travels(tasks, ranks, t)
    ensures var at, received := ArrivalOf(tasks, bytes, t), Incoming(tasks, bytes, tasks[t].candidateOwner, ranks);
            && at + bytes <= |received|
            && received[at..at + bytes] == Block(tasks[t], bytes)
            && forall i :: at <= i < at + bytes ==>
                 1 <= received[i] <= 251 && (received[i] - 1 - tasks[t].id) % 251 == 0
  {
    var from, to: nat := tasks[t].baselineOwner, tasks[t].candidateOwner;
    IncomingSegment(tasks, bytes, from, to, ranks);
    PackedBlock(tasks, from, to, bytes, t, |tasks|);
    var start, inner := ReceiveOffset(tasks, bytes, from, to), |Packed(tasks, from, to, bytes, t)|;
    var lane := Lane(tasks, bytes, from, to);
    SliceOfSlice(Incoming(tasks, bytes, to, ranks), start, start + |lane|, inner, inner + bytes);
    BlockNamesTask(Incoming(tasks, bytes, to, ranks), start + inner, tasks[t], bytes);
  }

  lemma BlockNamesTask(buffer: seq<Byte>, at: nat, task: Task, bytes: nat)
    requires at + bytes <= |buffer| && buffer[at..at + bytes] == Block(task, bytes)
    ensures forall i :: at <= i < at + bytes ==> 1 <= buffer[i] <= 251 && (buffer[i] - 1 - task.id) % 251 == 0
  {
    ModuloDifference(task.id);
    forall i | at <= i < at + bytes
      ensures buffer[i] == task.id % 251 + 1
    {
      assert buffer[i] == buffer[at..at + bytes][i - at];
    }
  }

  lemma ModuloDifference(id: nat)
    ensures (id % 251 - id) % 251 == 0
  {
    assert id % 251 - id == -(id / 251) * 251;
  }

  /** For a positive payload the blocks that arrive for two tasks are equal exactly when the tasks' numbers agree modulo
      251. */
  lemma ArrivingBlocksTellTasksApart(tasks: seq<Task>, bytes: nat, ranks: nat, t: nat, u: nat)
    requires 0 < bytes && Travels(tasks, ranks, t) && Travels(tasks, ranks, u)
    ensures var at, there := ArrivalOf(tasks, bytes, t), ArrivalOf(tasks, bytes, u);
            var atT := Incoming(tasks, bytes, tasks[t].candidateOwner, ranks);
            var atU := Incoming(tasks, bytes, tasks[u].candidateOwner, ranks);
            && at + bytes <= |atT| && there + bytes <= |atU|
            && (atT[at..at + bytes] == atU[there..there + bytes] <==> tasks[t].id % 251 == tasks[u].id % 251)
  {
    MovedBlockArrives(tasks, bytes, ranks, t);
    MovedBlockArrives(tasks, bytes, ranks, u);
    var a, b := Block(tasks[t], bytes), Block(tasks[u], bytes);
    assert a[0] == b[0] <==> tasks[t].id % 251 == tasks[u].id % 251;
  }

  lemma SliceOfSlice(s: seq<Byte>, a: nat, b: nat, c: nat, d: nat)
    requires a <= b <= |s| && c <= d <= b - a
    ensures s[a..b][c..d] == s[a + c..a + d]
  {
    forall i | 0 <= i < d - c
      ensures s[a..b][c..d][i] == s[a + c..a + d][i]
    {
      assert s[a..b][c + i] == s[a + c + i];
    }
  }

  // ---- Conservation ----

  function Occurrences(buffer: seq<Byte>, v: Byte): nat {
    if buffer == [] then 0 else (if buffer[0] == v then 1 else 0) + Occurrences(buffer[1..], v)
  }

  lemma {:induction false} OccurrencesAppend(a: seq<Byte>, b: seq<Byte>, v: Byte)
    ensures Occurrences(a + b, v) == Occurrences(a, v) + Occurrences(b, v)
  {
    if a == [] {
      assert a + b == b;
    } else {
      assert (a + b)[1..] == a[1..] + b;
      OccurrencesAppend(a[1..], b, v);
    }
  }

  lemma {:induction false} OccurrencesAreMultiplicity(buffer: seq<Byte>, v: Byte)
    ensures Occurrences(buffer, v) == multiset(buffer)[v]
  {
    if buffer != [] {
      OccurrencesAreMultiplicity(buffer[1..], v);
      assert buffer == [buffer[0]] + buffer[1..];
    }
  }

  /** How often one byte value occurs in the first b lanes of a row, and in the first a lanes of a column. */
  function RowCount(tasks: seq<Task>, bytes: nat, from: nat, b: nat, v: Byte): nat {
    if b == 0 then 0 else RowCount(tasks, bytes, from, b - 1, v) + Occurrences(Lane(tasks, bytes, from, b - 1), v)
  }

  function ColumnCount(tasks: seq<Task>, bytes: nat, to: nat, a: nat, v: Byte): nat {
    if a == 0 then 0 else ColumnCount(tasks, bytes, to, a - 1, v) + Occurrences(Lane(tasks, bytes, a - 1, to), v)
  }

  function RowsCount(tasks: seq<Task>, bytes: nat, a: nat, b: nat, v: Byte): nat {
    if a == 0 then 0 else RowsCount(tasks, bytes, a - 1, b, v) + RowCount(tasks, bytes, a - 1, b, v)
  }

  function ColumnsCount(tasks: seq<Task>, bytes: nat, a: nat, b: nat, v: Byte): nat {
    if b == 0 then 0 else ColumnsCount(tasks, bytes, a, b - 1, v) + ColumnCount(tasks, bytes, b - 1, a, v)
  }

  lemma {:induction false} ColumnsStep(tasks: seq<Task>, bytes: nat, a: nat, b: nat, v: Byte)
    requires 0 < a
    ensures ColumnsCount(tasks, bytes, a, b, v)
            == ColumnsCount(tasks, bytes, a - 1, b, v) + RowCount(tasks, bytes, a - 1, b, v)
  {
    if b > 0 { ColumnsStep(tasks, bytes, a, b - 1, v); }
  }

  lemma {:induction false} ColumnsEmpty(tasks: seq<Task>, bytes: nat, b: nat, v: Byte)
    ensures ColumnsCount(tasks, bytes, 0, b, v) == 0
  {
    if b > 0 { ColumnsEmpty(tasks, bytes, b - 1, v); }
  }

  lemma {:induction false} RowsAreColumns(tasks: seq<Task>, bytes: nat, a: nat, b: nat, v: Byte)
    ensures RowsCount(tasks, bytes, a, b, v) == ColumnsCount(tasks, bytes, a, b, v)
  {
    if a == 0 {
      ColumnsEmpty(tasks, bytes, b, v);
    } else {
      RowsAreColumns(tasks, bytes, a - 1, b, v);
      ColumnsStep(tasks, bytes, a, b, v);
    }
  }

  lemma {:induction false} OutgoingCount(tasks: seq<Task>, bytes: nat, from: nat, ranks: nat, v: Byte)
    ensures Occurrences(Outgoing(tasks, bytes, from, ranks), v) == RowCount(tasks, bytes, from, ranks, v)
  {
    if ranks > 0 {
      OutgoingCount(tasks, bytes, from, ranks - 1, v);
      OccurrencesAppend(Outgoing(tasks, bytes, from, ranks - 1), Lane(tasks, bytes, from, ranks - 1), v);
    }
  }

  lemma {:induction false} IncomingCount(tasks: seq<Task>, bytes: nat, to: nat, ranks: nat, v: Byte)
    ensures Occurrences(Incoming(tasks, bytes, to, ranks), v) == ColumnCount(tasks, bytes, to, ranks, v)
  {
    if ranks > 0 {
      IncomingCount(tasks, bytes, to, ranks - 1, v);
      OccurrencesAppend(Incoming(tasks, bytes, to, ranks - 1), Lane(tasks, bytes, ranks - 1, to), v);
    }
  }

  /** Send buffers of the first n ranks, one after the other. */
  function AllSent(tasks: seq<Task>, bytes: nat, ranks: nat, n: nat): seq<Byte> {
    if n == 0 then [] else AllSent(tasks, bytes, ranks, n - 1) + Outgoing(tasks, bytes, n - 1, ranks)
  }

  /** Receive buffers of the first n ranks, one after the other. */
  function AllReceived(tasks: seq<Task>, bytes: nat, ranks: nat, n: nat): seq<Byte> {
    if n == 0 then [] else AllReceived(tasks, bytes, ranks, n - 1) + Incoming(tasks, bytes, n - 1, ranks)
  }

  lemma {:induction false} SentCount(tasks: seq<Task>, bytes: nat, ranks: nat, n: nat, v: Byte)
    ensures Occurrences(AllSent(tasks, bytes, ranks, n), v) == RowsCount(tasks, bytes, n, ranks, v)
    decreases n
  {
    if n > 0 {
      SentCount(tasks, bytes, ranks, n - 1, v);
      SentStep(tasks, bytes, ranks, n, v);
    }
  }

  lemma SentStep(tasks: seq<Task>, bytes: nat, ranks: nat, n: nat, v: Byte)
    requires 0 < n
    ensures Occurrences(AllSent(tasks, bytes, ranks, n), v)
            == Occurrences(AllSent(tasks, bytes, ranks, n - 1), v) + RowCount(tasks, bytes, n - 1, ranks, v)
  {
    OutgoingCount(tasks, bytes, n - 1, ranks, v);
    OccurrencesAppend(AllSent(tasks, bytes, ranks, n - 1), Outgoing(tasks, bytes, n - 1, ranks), v);
  }

  lemma {:induction false} ReceivedCount(tasks: seq<Task>, bytes: nat, ranks: nat, n: nat, v: Byte)
    ensures Occurrences(AllReceived(tasks, bytes, ranks, n), v) == ColumnsCount(tasks, bytes, ranks, n, v)
    decreases n
  {
    if n > 0 {
      ReceivedCount(tasks, bytes, ranks, n - 1, v);
      ReceivedStep(tasks, bytes, ranks, n, v);
    }
  }

  lemma ReceivedStep(tasks: seq<Task>, bytes: nat, ranks: nat, n: nat, v: Byte)
    requires 0 < n
    ensures Occurrences(AllReceived(tasks, bytes, ranks, n), v)
            == Occurrences(AllReceived(tasks, bytes, ranks, n - 1), v) + ColumnCount(tasks, bytes, n - 1, ranks, v)
  {
    IncomingCount(tasks, bytes, n - 1, ranks, v);
    OccurrencesAppend(AllReceived(tasks, bytes, ranks, n - 1), Incoming(tasks, bytes, n - 1, ranks), v);
  }

  function ByteValue(b: Byte): real { b as real }

  function Checksum(buffer: seq<Byte>): real {
    SumOf(buffer, ByteValue)
  }

  /** Globally, what is received is a permutation of what is sent, so the checksum error is zero. */
  lemma MigrationConserves(tasks: seq<Task>, bytes: nat, ranks: nat)
    ensures multiset(AllSent(tasks, bytes, ranks, ranks)) == multiset(AllReceived(tasks, bytes, ranks, ranks))
    ensures |AllSent(tasks, bytes, ranks, ranks)| == |AllReceived(tasks, bytes, ranks, ranks)|
    ensures Checksum(AllSent(tasks, bytes, ranks, ranks)) == Checksum(AllReceived(tasks, bytes, ranks, ranks))
  {
    var sent, received := AllSent(tasks, bytes, ranks, ranks), AllReceived(tasks, bytes, ranks, ranks);
    var before: multiset<Byte>, after: multiset<Byte> := multiset(sent), multiset(received);
    forall v: Byte
      ensures before[v] == after[v]
    {
      SentCount(tasks, bytes, ranks, ranks, v);
      ReceivedCount(tasks, bytes, ranks, ranks, v);
      RowsAreColumns(tasks, bytes, ranks, ranks, v);
      OccurrencesAreMultiplicity(sent, v);
      OccurrencesAreMultiplicity(received, v);
    }
    assert before == after;
    SameMembers(sent, received);
    SumPermutation(sent, received, ByteValue);
  }

  // ---- Integer ranges ----

  /** Tasks among the first n that leave one rank or enter one. */
  function Leaving(tasks: seq<Task>, from: nat, n: nat): nat
    requires n <= |tasks|
  {
    if n == 0 then 0
    else Leaving(tasks, from, n - 1) + if tasks[n - 1].baselineOwner == from && Moves(tasks[n - 1]) then 1 else 0
  }

  function Entering(tasks: seq<Task>, to: nat, n: nat): nat
    requires n <= |tasks|
  {
    if n == 0 then 0
    else Entering(tasks, to, n - 1) + if tasks[n - 1].candidateOwner == to && Moves(tasks[n - 1]) then 1 else 0
  }

  /** Lengths of the first b lanes out of one rank, and of the first a lanes into one, over the first n tasks. */
  function SentLength(tasks: seq<Task>, bytes: nat, from: nat, b: nat, n: nat): nat
    requires n <= |tasks|
  {
    if b == 0 then 0 else SentLength(tasks, bytes, from, b - 1, n) + |Packed(tasks, from, b - 1, bytes, n)|
  }

  function ReceivedLength(tasks: seq<Task>, bytes: nat, to: nat, a: nat, n: nat): nat
    requires n <= |tasks|
  {
    if a == 0 then 0 else ReceivedLength(tasks, bytes, to, a - 1, n) + |Packed(tasks, a - 1, to, bytes, n)|
  }

  lemma {:induction false} SentLengthStep(tasks: seq<Task>, bytes: nat, from: nat, b: nat, n: nat)
    requires 0 < n <= |tasks|
    ensures var task := tasks[n - 1];
            SentLength(tasks, bytes, from, b, n) == SentLength(tasks, bytes, from, b, n - 1)
              + if task.baselineOwner == from && Moves(task) && 0 <= task.candidateOwner < b then bytes else 0
  {
    if b > 0 { SentLengthStep(tasks, bytes, from, b - 1, n); }
  }

  lemma {:induction false} ReceivedLengthStep(tasks: seq<Task>, bytes: nat, to: nat, a: nat, n: nat)
    requires 0 < n <= |tasks|
    ensures var task := tasks[n - 1];
            ReceivedLength(tasks, bytes, to, a, n) == ReceivedLength(tasks, bytes, to, a, n - 1)
              + if task.candidateOwner == to && Moves(task) && task.baselineOwner < a then bytes else 0
  {
    if a > 0 { ReceivedLengthStep(tasks, bytes, to, a - 1, n); }
  }

  lemma {:induction false} NothingYet(tasks: seq<Task>, bytes: nat, rank: nat, k: nat)
    ensures SentLength(tasks, bytes, rank, k, 0) == 0 == ReceivedLength(tasks, bytes, rank, k, 0)
  {
    if k > 0 { NothingYet(tasks, bytes, rank, k - 1); }
  }

  /** A rank sends exactly one block for each task that leaves it, and receives one for each that enters. */
  lemma {:induction false} LengthsCountBlocks(tasks: seq<Task>, bytes: nat, rank: nat, ranks: nat, n: nat)
    requires n <= |tasks|
    requires forall t :: 0 <= t < |tasks| ==> 0 <= tasks[t].candidateOwner < ranks && tasks[t].baselineOwner < ranks
    ensures SentLength(tasks, bytes, rank, ranks, n) == bytes * Leaving(tasks, rank, n)
    ensures ReceivedLength(tasks, bytes, rank, ranks, n) == bytes * Entering(tasks, rank, n)
  {
    if n == 0 {
      NothingYet(tasks, bytes, rank, ranks);
    } else {
      LengthsCountBlocks(tasks, bytes, rank, ranks, n - 1);
      SentLengthStep(tasks, bytes, rank, ranks, n);
      ReceivedLengthStep(tasks, bytes, rank, ranks, n);
      OneMore(bytes, Leaving(tasks, rank, n - 1));
      OneMore(bytes, Entering(tasks, rank, n - 1));
    }
  }

  lemma OneMore(bytes: nat, k: nat)
    ensures bytes * (k + 1) == bytes * k + bytes
  {}

  lemma {:induction false} OffsetsAreLengths(tasks: seq<Task>, bytes: nat, rank: nat, k: nat)
    ensures SendOffset(tasks, bytes, rank, k) == SentLength(tasks, bytes, rank, k, |tasks|)
    ensures ReceiveOffset(tasks, bytes, k, rank) == ReceivedLength(tasks, bytes, rank, k, |tasks|)
  {
    if k > 0 { OffsetsAreLengths(tasks, bytes, rank, k - 1); }
  }

  lemma {:induction false} LeavingAtMostOwned(tasks: seq<Task>, ranks: nat, from: nat, n: nat)
    requires 0 < ranks && n <= |tasks| && Numbered(tasks, ranks)
    ensures Leaving(tasks, from, n) <= Count(n, ranks, from)
  {
    if n > 0 { LeavingAtMostOwned(tasks, ranks, from, n - 1); }
  }

  lemma {:induction false} EnteringAtMostLoad(tasks: seq<Task>, ranks: nat, to: nat, n: nat)
    requires 0 < ranks && n <= |tasks| && Numbered(tasks, ranks)
    ensures Entering(tasks, to, n) <= OwnerLoad(tasks, Candidate, to, n)
  {
    if n > 0 { EnteringAtMostLoad(tasks, ranks, to, n - 1); }
  }

  lemma {:induction false} OffsetsMonotone(tasks: seq<Task>, bytes: nat, rank: nat, k: nat, ranks: nat)
    requires k <= ranks
    ensures SendOffset(tasks, bytes, rank, k) <= SendOffset(tasks, bytes, rank, ranks)
    ensures ReceiveOffset(tasks, bytes, k, rank) <= ReceiveOffset(tasks, bytes, ranks, rank)
    decreases ranks
  {
    if k < ranks { OffsetsMonotone(tasks, bytes, rank, k, ranks - 1); }
  }

  /** Within the option cap, on every communicator of two or more ranks, every MPI count and displacement
      of the migration stays far inside a 32-bit int. */
  lemma MigrationFitsInt(tasks: seq<Task>, ranks: nat, valuesPerTask: nat, rank: nat, k: nat)
    requires 2 <= ranks && rank < ranks && k <= ranks && Scheduled(tasks, ranks)
    requires valuesPerTask <= 1_000_000
    ensures var bytes := valuesPerTask * 8;
            && bytes <= 2147483647
            && SendOffset(tasks, bytes, rank, k) <= 64_000_000
            && ReceiveOffset(tasks, bytes, k, rank) <= 680_000_000
            && (k < ranks ==> |Lane(tasks, bytes, rank, k)| <= 64_000_000)
  {
    var bytes := valuesPerTask * SIZEOF_DOUBLE;
    OwnersInRange(tasks, ranks, Candidate);
    OwnersInRange(tasks, ranks, Baseline);
    OwnersBothInRange(tasks, ranks);
    LengthsCountBlocks(tasks, bytes, rank, ranks, |tasks|);
    OffsetsAreLengths(tasks, bytes, rank, ranks);
    OffsetsMonotone(tasks, bytes, rank, k, ranks);
    LeavingAtMostOwned(tasks, ranks, rank, |tasks|);
    EightEach(ranks, rank);
    EnteringAtMostLoad(tasks, ranks, rank, |tasks|);
    CandidateBelowBaseline(tasks, ranks, rank);
    BlocksAtMost(bytes, Leaving(tasks, rank, |tasks|), 8);
    BlocksAtMost(bytes, Entering(tasks, rank, |tasks|), 85);
    if k < ranks {
      SendOffsetsGrow(tasks, bytes, rank, k, ranks);
    }
  }

  lemma OwnersBothInRange(tasks: seq<Task>, ranks: nat)
    requires 0 < ranks && Scheduled(tasks, ranks)
    ensures forall t :: 0 <= t < |tasks| ==> 0 <= tasks[t].candidateOwner < ranks && tasks[t].baselineOwner < ranks
  {
    OwnersInRange(tasks, ranks, Candidate);
    OwnersInRange(tasks, ranks, Baseline);
    forall t | 0 <= t < |tasks|
      ensures 0 <= tasks[t].candidateOwner < ranks && tasks[t].baselineOwner < ranks
    {
      assert 0 <= OwnerOf(tasks[t], Candidate) < ranks && 0 <= OwnerOf(tasks[t], Baseline) < ranks;
    }
  }

  lemma BlocksAtMost(bytes: nat, k: nat, limit: nat)
    requires bytes <= 8_000_000 && k <= limit
    ensures bytes * k <= 8_000_000 * limit
  {
    assert bytes * k <= bytes * limit;
  }

  /** The constructor never throws on an overflow inside the option cap. */
  lemma NoSendOverflow(tasks: seq<Task>, ranks: nat, valuesPerTask: nat, rank: nat)
    requires 2 <= ranks && rank < ranks && Scheduled(tasks, ranks) && valuesPerTask <= MAX_VALUES_PER_TASK
    ensures valuesPerTask * SIZEOF_DOUBLE <= INT_MAX
    ensures forall to: nat :: to < ranks ==> |Lane(tasks, valuesPerTask * SIZEOF_DOUBLE, rank, to)| <= INT_MAX
  {
    forall to: nat | to < ranks
      ensures |Lane(tasks, valuesPerTask * SIZEOF_DOUBLE, rank, to)| <= INT_MAX
    {
      MigrationFitsInt(tasks, ranks, valuesPerTask, rank, to);
    }
    MigrationFitsInt(tasks, ranks, valuesPerTask, rank, 0);
  }

  // ---- Some bytes move ----

  lemma AllSentStep(tasks: seq<Task>, bytes: nat, ranks: nat, n: nat)
    requires 0 < n
    ensures |AllSent(tasks, bytes, ranks, n)|
            == |AllSent(tasks, bytes, ranks, n - 1)| + |Outgoing(tasks, bytes, n - 1, ranks)|
  {}

  lemma {:induction false} AllSentAtLeast(tasks: seq<Task>, bytes: nat, ranks: nat, n: nat, from: nat)
    requires from < n
    ensures |Outgoing(tasks, bytes, from, ranks)| <= |AllSent(tasks, bytes, ranks, n)|
    decreases n
  {
    AllSentStep(tasks, bytes, ranks, n);
    if from < n - 1 {
      AllSentAtLeast(tasks, bytes, ranks, n - 1, from);
    }
  }

  lemma SentTotal(tasks: seq<Task>, bytes: nat, ranks: nat, n: nat, t: nat)
    requires t < |tasks| && Moves(tasks[t]) && n <= ranks
    requires tasks[t].baselineOwner < n && 0 <= tasks[t].candidateOwner < ranks
    ensures bytes <= |AllSent(tasks, bytes, ranks, n)|
  {
    SentFrom(tasks, bytes, ranks, t);
    AllSentAtLeast(tasks, bytes, ranks, n, tasks[t].baselineOwner);
  }

  lemma SentFrom(tasks: seq<Task>, bytes: nat, ranks: nat, t: nat)
    requires t < |tasks| && Moves(tasks[t]) && 0 <= tasks[t].candidateOwner < ranks
    ensures bytes <= |Outgoing(tasks, bytes, tasks[t].baselineOwner, ranks)|
  {
    var from, to: nat := tasks[t].baselineOwner, tasks[t].candidateOwner;
    PackedBlock(tasks, from, to, bytes, t, |tasks|);
    OutgoingSegment(tasks, bytes, from, to, ranks);
  }

  lemma {:induction false} NothingPacked(tasks: seq<Task>, from: nat, to: nat, bytes: nat, n: nat)
    requires n <= |tasks| && forall t :: 0 <= t < |tasks| ==> !Moves(tasks[t])
    ensures Packed(tasks, from, to, bytes, n) == []
  {
    if n > 0 { NothingPacked(tasks, from, to, bytes, n - 1); }
  }

  lemma {:induction false} NothingOutgoing(tasks: seq<Task>, bytes: nat, from: nat, ranks: nat)
    requires forall t :: 0 <= t < |tasks| ==> !Moves(tasks[t])
    ensures Outgoing(tasks, bytes, from, ranks) == []
  {
    if ranks > 0 {
      NothingOutgoing(tasks, bytes, from, ranks - 1);
      NothingPacked(tasks, from, ranks - 1, bytes, |tasks|);
    }
  }

  lemma {:induction false} NothingSent(tasks: seq<Task>, bytes: nat, ranks: nat, n: nat)
    requires forall t :: 0 <= t < |tasks| ==> !Moves(tasks[t])
    ensures AllSent(tasks, bytes, ranks, n) == []
  {
    if n > 0 {
      NothingSent(tasks, bytes, ranks, n - 1);
      NothingOutgoing(tasks, bytes, n - 1, ranks);
    }
  }

  /** The "did not migrate any task data" error is raised exactly on a single rank. */
  lemma BytesMoveIffParallel(tasks: seq<Task>, ranks: nat, bytes: nat)
    requires 0 < ranks && Scheduled(tasks, ranks) && 0 < bytes
    ensures 0 < |AllSent(tasks, bytes, ranks, ranks)| <==> 2 <= ranks
  {
    SomeTaskMovesIffParallel(tasks, ranks);
    if 2 <= ranks {
      var t :| 0 <= t < |tasks| && Moves(tasks[t]);
      OwnersBothInRange(tasks, ranks);
      SentTotal(tasks, bytes, ranks, ranks, t);
    } else {
      NothingSent(tasks, bytes, ranks, ranks);
    }
  }
}
