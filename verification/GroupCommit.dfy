/** The write queue: the front writer commits a group for those behind it (leveldb/db/db_impl.cc: Write,
    BuildBatchGroup; leveldb/db/write_batch.cc).  Each method below is a section under the mutex, or one
    action of the leader while it has released the mutex; any interleaving of calls is a run. */
module GroupCommit {
  import opened Options
  import opened WriteBatches

  /** A queued write; the batch is missing for a forced memtable switch. */
  datatype Writer = Writer(id: nat, batch: Option<seq<Update>>, sync: bool)

  function Updates(w: Writer): seq<Update> { if w.batch.Some? then w.batch.value else [] }

  function Flatten(ws: seq<Writer>): seq<Update> {
    if ws == [] then [] else Flatten(ws[..|ws| - 1]) + Updates(ws[|ws| - 1])
  }

  // ----- choosing a group -----

  function ByteSize(w: Writer): nat { if w.batch.Some? then HEADER + |EncodeUpdates(w.batch.value)| else 0 }

  /** The size BuildBatchGroup has added up when it has looked at the writers of `ws`. */
  function TotalSize(ws: seq<Writer>): nat {
    if ws == [] then 0 else TotalSize(ws[..|ws| - 1]) + ByteSize(ws[|ws| - 1])
  }

  const SMALL: nat := 131072
  const LARGE: nat := 1048576

  function MaxSize(first: Writer): nat {
    if ByteSize(first) <= SMALL then ByteSize(first) + SMALL else LARGE
  }

  /** Whether the writer at position n cannot join the group of those before it. */
  ghost predicate Blocks(writers: seq<Writer>, n: nat)
    requires 0 < n < |writers|
  {
    || (writers[n].sync && !writers[0].sync)
    || (writers[n].batch.Some? && TotalSize(writers[..n + 1]) > MaxSize(writers[0]))
  }

  /** The first n writers are the group: the longest stretch from the front with no writer that blocks. */
  ghost predicate IsGroup(writers: seq<Writer>, n: nat) {
    && 0 < n <= |writers|
    && (forall i | 0 < i < n :: !Blocks(writers, i))
    && (n < |writers| ==> Blocks(writers, n))
  }

  method BuildBatchGroup(writers: seq<Writer>) returns (n: nat, updates: seq<Update>)
    requires writers != [] && writers[0].batch.Some?
    ensures IsGroup(writers, n) && updates == Flatten(writers[..n])
  {
    hide EncodeUpdates, Flatten, TotalSize;
    var first := writers[0];
    updates := first.batch.value;
    var size := ByteSize(first);
    var maxSize := MaxSize(first);
    n := 1;
    SingleWriter(writers);
    while n < |writers|
      invariant 1 <= n <= |writers|
      invariant size == TotalSize(writers[..n]) && updates == Flatten(writers[..n])
      invariant forall i | 0 < i < n :: !Blocks(writers, i)
    {
      var w := writers[n];
      OneMore(writers, n);
      if w.sync && !first.sync {
        break;
      }
      if w.batch.Some? {
        size := size + ByteSize(w);
        if size > maxSize {
          break;
        }
        updates := updates + w.batch.value;
      }
      n := n + 1;
    }
  }

  lemma SingleWriter(writers: seq<Writer>)
    requires writers != []
    ensures TotalSize(writers[..1]) == ByteSize(writers[0]) && Flatten(writers[..1]) == Updates(writers[0])
  {
    assert writers[..1][..0] == [];
    assert Flatten(writers[..1]) == Flatten([]) + Updates(writers[0]);
  }

  lemma OneMore(ws: seq<Writer>, n: nat)
    requires n < |ws|
    ensures Flatten(ws[..n + 1]) == Flatten(ws[..n]) + Updates(ws[n])
    ensures TotalSize(ws[..n + 1]) == TotalSize(ws[..n]) + ByteSize(ws[n])
  {
    assert ws[..n + 1][..n] == ws[..n];
  }

  /** A sync writer is never committed by a leader that does not sync. */
  lemma NoSyncUnderNonSync(writers: seq<Writer>, n: nat, i: nat)
    requires IsGroup(writers, n) && i < n
    ensures writers[i].sync ==> writers[0].sync
  {
    if i > 0 {
      assert !Blocks(writers, i);
    }
  }

  /** A writer behind a leader with a batch is taken into its group exactly when neither it nor one before it blocks;
      without a batch of its own it then does nothing but leave. */
  lemma TakenInExactly(writers: seq<Writer>, n: nat, i: nat)
    requires IsGroup(writers, n) && 0 < i < |writers|
    ensures i < n <==> forall j | 0 < j <= i :: !Blocks(writers, j)
  {
    hide Blocks;
  }

  function Batches(ws: seq<Writer>): nat {
    if ws == [] then 0 else Batches(ws[..|ws| - 1]) + if ws[|ws| - 1].batch.Some? then 1 else 0
  }

  /** The size that is added up: the updates of all, and a header of 12 bytes for each batch. */
  lemma {:induction false} SizeIs(ws: seq<Writer>)
    ensures TotalSize(ws) == 12 * Batches(ws) + |EncodeUpdates(Flatten(ws))|
  {
    hide EncodeUpdates;
    if ws == [] {
      EncodeNone();
    } else {
      SizeIs(ws[..|ws| - 1]);
      EncodeConcat(Flatten(ws[..|ws| - 1]), Updates(ws[|ws| - 1]));
      EncodeNone();
    }
  }

  /** The bytes of a group of these writers, if they were one. */
  ghost function GroupBytes(ws: seq<Writer>): nat { 12 * Batches(ws) + |EncodeUpdates(Flatten(ws))| }

  /** A sync writer joins only a leader with sync.  With a batch it joins while the bytes stay within those of the
      leader and 128 KiB, or within 1 MiB behind a leader of more than 128 KiB. */
  ghost predicate Joins(writers: seq<Writer>, j: nat)
    requires 0 < j < |writers|
  {
    && (writers[j].sync ==> writers[0].sync)
    && (writers[j].batch.Some? ==>
          var first := GroupBytes(writers[..1]);
          GroupBytes(writers[..j + 1]) <= if first <= 131072 then first + 131072 else 1048576)
  }

  lemma BlocksExactly(writers: seq<Writer>, j: nat)
    requires 0 < j < |writers|
    ensures Blocks(writers, j) <==> !Joins(writers, j)
  {
    hide EncodeUpdates, Flatten, Batches, TotalSize;
    SizeIs(writers[..1]);
    SingleWriter(writers);
    SizeIs(writers[..j + 1]);
  }

  /** A follower is taken in exactly when it and all between it and the leader join. */
  lemma TakenInBySize(writers: seq<Writer>, n: nat, i: nat)
    requires IsGroup(writers, n) && 0 < i < |writers|
    ensures i < n <==> forall j | 0 < j <= i :: Joins(writers, j)
  {
    hide Blocks, Joins;
    forall j | 0 < j < |writers| ensures Blocks(writers, j) <==> !Joins(writers, j) { BlocksExactly(writers, j); }
  }

  // ----- what has been committed -----

  /** A finished write: the first sequence number of its updates, and the log record they went to. */
  datatype Done = Done(w: Writer, first: nat, written: bool, record: nat)

  datatype Stamped = Stamped(seqno: nat, update: Update)

  datatype Record = Record(first: nat, updates: seq<Update>)

  function Stamp(first: nat, us: seq<Update>): (r: seq<Stamped>)
    ensures |r| == |us| && forall i | 0 <= i < |us| :: r[i] == Stamped(first + i, us[i])
  {
    seq(|us|, i requires 0 <= i < |us| => Stamped(first + i, us[i]))
  }

  /** The updates of the finished writes, in order. */
  ghost function Committed(ds: seq<Done>): seq<Update> {
    if ds == [] then []
    else Committed(ds[..|ds| - 1]) + if ds[|ds| - 1].written then Updates(ds[|ds| - 1].w) else []
  }

  ghost function WritersOf(ds: seq<Done>): (ws: seq<Writer>)
    ensures |ws| == |ds| && forall i | 0 <= i < |ds| :: ws[i] == ds[i].w
  {
    seq(|ds|, i requires 0 <= i < |ds| => ds[i].w)
  }

  /** Every write's sequence numbers start where those of the writes before it end. */
  ghost predicate Placed(ds: seq<Done>) {
    ds != [] ==> Placed(ds[..|ds| - 1]) && ds[|ds| - 1].first == |Committed(ds[..|ds| - 1])| + 1
  }

  ghost function Logged(log: seq<Record>): seq<Update> {
    if log == [] then [] else Logged(log[..|log| - 1]) + log[|log| - 1].updates
  }

  /** A sync write's updates lie inside a synced record. */
  ghost predicate Secured(d: Done, log: seq<Record>, synced: nat) {
    d.w.sync && d.written ==>
      && d.record < synced && d.record < |log|
      && log[d.record].first <= d.first && d.first + |Updates(d.w)| <= log[d.record].first + |log[d.record].updates|
  }

  /** The log holds the committed updates and then `more`; every sync write in it is secured. */
  ghost predicate LogOk(log: seq<Record>, synced: nat, ds: seq<Done>, more: seq<Update>) {
    && synced <= |log| && Logged(log) == Committed(ds) + more
    && SecuredAll(ds, log, synced)
  }

  ghost predicate SecuredAll(ds: seq<Done>, log: seq<Record>, synced: nat) {
    forall i | 0 <= i < |ds| :: Secured(ds[i], log, synced)
  }

  /** The memtable holds the committed updates and then `part` of the group in progress. */
  ghost predicate MemOk(mem: seq<Stamped>, committed: seq<Update>, part: seq<Update>) {
    mem == Stamp(1, committed) + Stamp(|committed| + 1, part)
  }

  lemma DoneAdded(ds: seq<Done>, d: Done)
    ensures Committed(ds + [d]) == Committed(ds) + if d.written then Updates(d.w) else []
    ensures !d.written ==> Committed(ds + [d]) == Committed(ds)
    ensures WritersOf(ds + [d]) == WritersOf(ds) + [d.w]
    ensures Placed(ds) && d.first == |Committed(ds)| + 1 ==> Placed(ds + [d])
  {
    assert (ds + [d])[..|ds|] == ds;
  }

  lemma {:induction false} PlacedAt(ds: seq<Done>, i: nat)
    requires Placed(ds) && i < |ds|
    ensures ds[i].first == |Committed(ds[..i])| + 1
  {
    if i < |ds| - 1 {
      PlacedAt(ds[..|ds| - 1], i);
      assert ds[..|ds| - 1][..i] == ds[..i];
    }
  }

  lemma RecordAdded(log: seq<Record>, synced: nat, ds: seq<Done>, r: Record, sync: bool)
    requires LogOk(log, synced, ds, [])
    ensures LogOk(log + [r], if sync then |log| + 1 else synced, ds, r.updates)
  {
    hide Committed;
    assert (log + [r])[..|log|] == log;
    assert Committed(ds) + [] == Committed(ds);
  }

  lemma UpdateInserted(mem: seq<Stamped>, committed: seq<Update>, us: seq<Update>, i: nat)
    requires i < |us| && MemOk(mem, committed, us[..i])
    ensures MemOk(mem + [Stamped(|committed| + 1 + i, us[i])], committed, us[..i + 1])
  {
    assert Stamp(|committed| + 1, us[..i + 1]) == Stamp(|committed| + 1, us[..i])
           + [Stamped(|committed| + 1 + i, us[i])];
  }

  lemma GroupCommitted(mem: seq<Stamped>, committed: seq<Update>, us: seq<Update>)
    requires MemOk(mem, committed, us)
    ensures MemOk(mem, committed + us, [])
  {
    assert Stamp(1, committed + us) == Stamp(1, committed) + Stamp(|committed| + 1, us);
  }

  /** Only writers without a batch that came to the front force a memtable switch. */
  ghost predicate SwitchesOk(switched: set<nat>, finished: seq<Done>) {
    forall k | k in switched :: k < |finished| && finished[k].w.batch.None? && !finished[k].written
  }

  /** After `before`, k writers of the queue have finished as members of a group. */
  ghost predicate TakenIn(before: seq<Done>, queue: seq<Writer>, k: nat, after: seq<Done>) {
    && |after| == |before| + k && before <= after && k <= |queue|
    && forall i | |before| <= i < |after| :: after[i].written && after[i].w == queue[i - |before|]
  }

  lemma OneMoreTaken(before: seq<Done>, queue: seq<Writer>, k: nat, after: seq<Done>, d: Done)
    requires k < |queue| && d.written && d.w == queue[k]
    ensures TakenIn(before, queue, k, after) ==> TakenIn(before, queue, k + 1, after + [d])
  {
  }

  /** What was switched stays what it was. */
  lemma SwitchesStay(switched: set<nat>, before: seq<Done>, after: seq<Done>)
    requires SwitchesOk(switched, before) && before <= after
    ensures SwitchesOk(switched, after)
  {
  }

  lemma NoneTakenIn(before: seq<Done>, queue: seq<Writer>)
    ensures TakenIn(before, queue, 0, before)
  {
  }

  lemma TakenInExtends(before: seq<Done>, queue: seq<Writer>, k: nat, after: seq<Done>)
    requires TakenIn(before, queue, k, after)
    ensures before <= after
  {
  }

  datatype Phase = Idle | Working(n: nat, updates: seq<Update>, logged: bool, inserted: nat)

  ghost predicate GroupOk(phase: Phase, writers: seq<Writer>, log: seq<Record>, synced: nat, lastSequence: nat) {
    phase.Working? ==>
      && 0 < phase.n <= |writers| && phase.updates == Flatten(writers[..phase.n])
      && phase.inserted <= |phase.updates| && (phase.inserted > 0 ==> phase.logged)
      && (forall i | 0 <= i < phase.n :: writers[i].sync ==> writers[0].sync)
      && (phase.logged ==> log != [] && log[|log| - 1] == Record(lastSequence + 1, phase.updates)
                           && (writers[0].sync ==> synced == |log|))
  }

  function InLog(phase: Phase): seq<Update> { if phase.Working? && phase.logged then phase.updates else [] }

  function InMem(phase: Phase): seq<Update> {
    if phase.Working? && phase.inserted <= |phase.updates| then phase.updates[..phase.inserted] else []
  }

  class WriteQueue {
    var writers: seq<Writer>
    var lastSequence: nat
    var phase: Phase
    var log: seq<Record>
    var synced: nat
    var mem: seq<Stamped>
    ghost var arrived: seq<Writer>
    ghost var finished: seq<Done>
    ghost var switched: set<nat>     // the places in `finished` of the writers that forced a memtable switch

    ghost predicate Valid()
      reads this
    {
      && arrived == WritersOf(finished) + writers
      && Placed(finished) && lastSequence == |Committed(finished)|
      && LogOk(log, synced, finished, InLog(phase))
      && MemOk(mem, Committed(finished), InMem(phase))
      && GroupOk(phase, writers, log, synced, lastSequence)
      && SwitchesOk(switched, finished)
    }

    constructor ()
      ensures Valid() && arrived == [] && finished == [] && phase == Idle && switched == {}
    {
      writers, lastSequence, phase, log, synced, mem := [], 0, Idle, [], 0, [];
      arrived, finished, switched := [], [], {};
    }

    /** A thread joins the queue. */
    method Join(w: Writer)
      requires Valid()
      modifies this`writers, this`arrived
      ensures Valid() && arrived == old(arrived) + [w] && writers == old(writers) + [w]
    {
      hide Placed, Committed, LogOk, MemOk, Flatten;
      if phase.Working? {
        assert (writers + [w])[..phase.n] == writers[..phase.n];
      }
      writers := writers + [w];
      arrived := arrived + [w];
    }

    /** The thread at the front takes charge; when there is no room, or it has nothing to write, it only leaves.
        Making room for a writer without a batch switches memtables. */
    method Lead(roomMade: bool)
      requires Valid() && phase.Idle? && writers != []
      modifies this`phase, this`writers, this`finished, this`switched
      ensures Valid() && arrived == old(arrived)
      ensures if roomMade && old(writers)[0].batch.Some?
              then phase.Working? && IsGroup(writers, phase.n) && finished == old(finished) && writers == old(writers)
                   && phase == Working(phase.n, Flatten(writers[..phase.n]), false, 0)
              else phase.Idle? && writers == old(writers)[1..] &&
                   finished == old(finished) + [Done(old(writers)[0], lastSequence + 1, false, 0)]
      ensures switched == old(switched) +
                          if roomMade && old(writers)[0].batch.None? then {|old(finished)|} else {}
    {
      hide Placed, Committed, MemOk, Flatten, LogOk, IsGroup;
      if roomMade && writers[0].batch.Some? {
        var n, updates := BuildBatchGroup(writers);
        assert 0 < n <= |writers| by { GroupBounds(writers, n); }
        forall i | 0 <= i < n ensures writers[i].sync ==> writers[0].sync { NoSyncUnderNonSync(writers, n, i); }
        phase := Working(n, updates, false, 0);
        assert InMem(phase) == [];
      } else {
        var d := Done(writers[0], lastSequence + 1, false, 0);
        DoneAdded(finished, d);
        UnwrittenLogged(log, synced, finished, d);
        if roomMade {
          switched := switched + {|finished|};
        }
        finished := finished + [d];
        writers := writers[1..];
      }
    }

    /** The leader appends the group to the log, and syncs it if the leader asked for that. */
    method WriteLog()
      requires Valid() && phase.Working? && !phase.logged
      modifies this`log, this`synced, this`phase
      ensures Valid() && phase == old(phase).(logged := true)
      ensures log == old(log) + [Record(lastSequence + 1, phase.updates)]
      ensures synced == if writers[0].sync then |log| else old(synced)
    {
      hide Placed, Committed, MemOk, Flatten, LogOk;
      RecordAdded(log, synced, finished, Record(lastSequence + 1, phase.updates), writers[0].sync);
      log := log + [Record(lastSequence + 1, phase.updates)];
      if writers[0].sync {
        synced := |log|;
      }
      phase := phase.(logged := true);
    }

    /** The leader inserts the next update of the group into the memtable. */
    method InsertNext()
      requires Valid() && phase.Working? && phase.logged && phase.inserted < |phase.updates|
      modifies this`mem, this`phase
      ensures Valid() && phase == old(phase).(inserted := old(phase).inserted + 1)
      ensures mem == old(mem) + [Stamped(lastSequence + phase.inserted, phase.updates[old(phase).inserted])]
    {
      hide Placed, Committed, MemOk, Flatten, LogOk;
      var i := phase.inserted;
      UpdateInserted(mem, Committed(finished), phase.updates, i);
      mem := mem + [Stamped(lastSequence + 1 + i, phase.updates[i])];
      phase := phase.(inserted := i + 1);
    }

    /** LastSequence moves past the group, and its writers leave the queue in order. */
    method Finish()
      requires Valid() && phase.Working? && phase.logged && phase.inserted == |phase.updates|
      modifies this`lastSequence, this`writers, this`finished, this`phase
      ensures Valid() && phase.Idle? && arrived == old(arrived)
      ensures lastSequence == old(lastSequence) + |Flatten(old(writers)[..old(phase.n)])|
      ensures writers == old(writers)[old(phase.n)..]
      ensures |finished| == |old(finished)| + old(phase.n)
      ensures TakenIn(old(finished), old(writers), old(phase.n), finished)
    {
      hide Placed, Committed, MemOk, Flatten, LogOk, SecuredAll, WritersOf, TakenIn, SwitchesOk;
      ghost var queue, n, before := writers, phase.n, finished;
      ghost var updates := phase.updates;
      assert phase.updates[..phase.inserted] == phase.updates;
      GroupCommitted(mem, Committed(finished), phase.updates);
      lastSequence := lastSequence + |phase.updates|;
      var left := phase.n;
      NoneFlat(queue);
      NoneTakenIn(finished, queue);
      LogFacts(log, synced, finished, updates);
      while left > 0
        modifies this`writers, this`finished
        invariant 0 <= left <= n && writers == queue[n - left..] && |finished| == |before| + n - left
        invariant WritersOf(finished) == WritersOf(before) + queue[..n - left]
        invariant Placed(finished) && Committed(finished) == Committed(before) + Flatten(queue[..n - left])
        invariant SecuredAll(finished, log, synced)
        invariant TakenIn(before, queue, n - left, finished)
      {
        FlattenGrows(queue, n - left + 1, n);
        OneMore(queue, n - left);
        Retire(before, queue, n - left);
        left := left - 1;
      }
      LogSettled(log, synced, before, updates, finished);
      TakenInExtends(before, queue, n, finished);
      SwitchesStay(switched, before, finished);
      assert queue == queue[..n] + queue[n..];
      phase := Idle;
      assert InLog(phase) == [] && InMem(phase) == [];
    }

    /** All that a leader does for its group, when no other thread comes in between. */
    method Commit()
      requires Valid() && phase.Working? && !phase.logged && phase.inserted == 0
      modifies this`log, this`synced, this`mem, this`phase, this`lastSequence, this`writers, this`finished
      ensures Valid() && phase.Idle? && arrived == old(arrived)
      ensures writers == old(writers)[old(phase.n)..]
      ensures |finished| == |old(finished)| + old(phase.n)
      ensures TakenIn(old(finished), old(writers), old(phase.n), finished)
    {
      hide Placed, Committed, LogOk, MemOk, Flatten, WritersOf, SwitchesOk, TakenIn;
      WriteLog();
      while phase.inserted < |phase.updates|
        modifies this`mem, this`phase
        invariant Valid() && phase.Working? && phase == old(phase).(logged := true, inserted := phase.inserted)
        decreases |phase.updates| - phase.inserted
      {
        InsertNext();
      }
      Finish();
    }

    /** A writer that was taken into a group has forced no memtable switch. */
    lemma TakenInNeverSwitches(i: nat)
      requires Valid() && i < |finished| && finished[i].written
      ensures i !in switched
    {
    }

    /** Writers finish in the order in which they came, each once. */
    lemma FirstInFirstOut()
      requires Valid()
      ensures |finished| <= |arrived| && writers == arrived[|finished|..]
      ensures forall i | 0 <= i < |finished| :: finished[i].w == arrived[i]
    {
      assert forall i | 0 <= i < |finished| :: WritersOf(finished)[i] == finished[i].w;
    }

    /** Written batches have disjoint runs of sequence numbers, one after another without gap. */
    lemma RangesInOrder(i: nat, j: nat)
      requires Valid() && i < j < |finished|
      ensures finished[i].first + (if finished[i].written then |Updates(finished[i].w)| else 0) <= finished[j].first
      ensures j == i + 1 ==>
                finished[j].first == finished[i].first + if finished[i].written then |Updates(finished[i].w)| else 0
    {
      hide LogOk, MemOk, GroupOk;
      PlacedAt(finished, i);
      PlacedAt(finished, j);
      CommittedGrows(finished, i, j);
    }

    /** A reader at LastSequence sees exactly the finished batches, each one whole, and nothing of a group
        in progress. */
    lemma AllOrNothing(i: nat)
      requires Valid() && i < |finished| && finished[i].written
      ensures |mem| >= lastSequence && (forall k | 0 <= k < |mem| :: mem[k].seqno == k + 1)
      ensures mem[..lastSequence] == Stamp(1, Committed(finished))
      ensures finished[i].first >= 1 && finished[i].first - 1 + |Updates(finished[i].w)| <= lastSequence
      ensures finished[i].first >= 1 && finished[i].first - 1 + |Updates(finished[i].w)| <= |mem| ==>
                mem[finished[i].first - 1..finished[i].first - 1 + |Updates(finished[i].w)|] ==
                Stamp(finished[i].first, Updates(finished[i].w))
    {
      hide *;
      ValidParts();
      PlacedAt(finished, i);
      CommittedSlice(finished, i);
      WholeBatch(mem, Committed(finished), InMem(phase), finished[i].first - 1, Updates(finished[i].w));
    }

    lemma ValidParts()
      requires Valid()
      ensures Placed(finished) && lastSequence == |Committed(finished)| && MemOk(mem, Committed(finished), InMem(phase))
    {
    }

    /** One writer of the group leaves the queue. */
    method Retire(ghost before: seq<Done>, ghost queue: seq<Writer>, ghost k: nat)
      requires k < |queue| && writers == queue[k..]
      requires WritersOf(finished) == WritersOf(before) + queue[..k]
      requires Placed(finished) && Committed(finished) == Committed(before) + Flatten(queue[..k])
      requires SecuredAll(finished, log, synced)
      requires log != [] && (writers[0].sync ==> synced == |log|)
      requires log[|log| - 1].first == |Committed(before)| + 1 && |Flatten(queue[..k + 1])| <= |log[|log| - 1].updates|
      modifies this`writers, this`finished
      ensures writers == queue[k + 1..] && |finished| == |old(finished)| + 1
      ensures TakenIn(before, queue, k, old(finished)) ==> TakenIn(before, queue, k + 1, finished)
      ensures WritersOf(finished) == WritersOf(before) + queue[..k + 1]
      ensures Placed(finished) && Committed(finished) == Committed(before) + Flatten(queue[..k + 1])
      ensures SecuredAll(finished, log, synced)
    {
      hide *;
      ghost var d := Done(writers[0], |Committed(finished)| + 1, true, |log| - 1);
      OneMore(queue, k);
      DoneAdded(finished, d);
      OneMoreSecured(finished, d, log, synced);
      OneMoreTaken(before, queue, k, finished, d);
      finished := finished + [d];
      writers := writers[1..];
      assert queue[..k + 1] == queue[..k] + [queue[k]];
    }
  }

  /** A batch and, behind it, a writer that is to force a memtable switch: both finish and nothing is switched. */
  method SwitchNotMade(u: Update) returns (queue: WriteQueue)
    ensures fresh(queue) && queue.Valid() && |queue.finished| == 2 && queue.switched == {}
    ensures queue.finished[1].w == Writer(1, None, false)
  {
    hide Placed, Committed, LogOk, MemOk, Flatten, TotalSize, GroupOk, SwitchesOk, WritersOf, IsGroup;
    queue := new WriteQueue();
    queue.Join(Writer(0, Some([u]), false));
    queue.Join(Writer(1, None, false));
    queue.Lead(true);
    GroupBounds(queue.writers, queue.phase.n);
    TakenInExactly(queue.writers, queue.phase.n, 1);
    ghost var ws := queue.writers;
    queue.Commit();
    assert TakenIn([], ws, 2, queue.finished);
  }

  lemma {:induction false} CommittedGrows(ds: seq<Done>, i: nat, j: nat)
    requires i < j < |ds|
    ensures |Committed(ds[..i])| + (if ds[i].written then |Updates(ds[i].w)| else 0) <= |Committed(ds[..j])|
    ensures j == i + 1 ==>
              |Committed(ds[..i])| + (if ds[i].written then |Updates(ds[i].w)| else 0) == |Committed(ds[..j])|
  {
    assert ds[..j][..j - 1] == ds[..j - 1];
    if i < j - 1 {
      CommittedGrows(ds, i, j - 1);
    }
  }

  lemma {:induction false} CommittedSlice(ds: seq<Done>, i: nat)
    requires i < |ds| && ds[i].written
    ensures var lo, us := |Committed(ds[..i])|, Updates(ds[i].w);
            lo + |us| <= |Committed(ds)| && Committed(ds)[lo..lo + |us|] == us
  {
    hide Updates;
    var n := |ds| - 1;
    if i < n {
      CommittedSlice(ds[..n], i);
      assert ds[..n][..i] == ds[..i];
    }
  }

  lemma WholeBatch(mem: seq<Stamped>, c: seq<Update>, part: seq<Update>, lo: nat, us: seq<Update>)
    requires MemOk(mem, c, part) && lo + |us| <= |c| && c[lo..lo + |us|] == us
    ensures |mem| >= |c| && (forall k | 0 <= k < |mem| :: mem[k].seqno == k + 1) && mem[..|c|] == Stamp(1, c)
    ensures mem[lo..lo + |us|] == Stamp(lo + 1, us)
  {
    assert forall k | 0 <= k < |us| :: c[lo + k] == c[lo..lo + |us|][k] == us[k];
  }

  lemma OneMoreSecured(ds: seq<Done>, d: Done, log: seq<Record>, synced: nat)
    requires SecuredAll(ds, log, synced) && d.record + 1 == |log| && (d.w.sync ==> synced == |log|)
    requires log[d.record].first <= d.first && d.first + |Updates(d.w)| <= log[d.record].first + |log[d.record].updates|
    ensures SecuredAll(ds + [d], log, synced)
  {
    hide Updates;
  }

  lemma LogFacts(log: seq<Record>, synced: nat, ds: seq<Done>, more: seq<Update>)
    requires LogOk(log, synced, ds, more)
    ensures SecuredAll(ds, log, synced)
  {
  }

  lemma LogSettled(log: seq<Record>, synced: nat, ds: seq<Done>, more: seq<Update>, ds': seq<Done>)
    requires LogOk(log, synced, ds, more) && Committed(ds') == Committed(ds) + more && SecuredAll(ds', log, synced)
    ensures LogOk(log, synced, ds', [])
  {
    hide Committed, SecuredAll;
  }

  lemma NoneFlat(ws: seq<Writer>)
    ensures Flatten(ws[..0]) == []
  {
  }

  lemma {:induction false} FlattenGrows(ws: seq<Writer>, i: nat, k: nat)
    requires i <= k <= |ws|
    ensures |Flatten(ws[..i])| <= |Flatten(ws[..k])|
  {
    hide *;
    if i < k {
      FlattenGrows(ws, i, k - 1);
      OneMore(ws, k - 1);
    }
  }

  lemma GroupBounds(writers: seq<Writer>, n: nat)
    requires IsGroup(writers, n)
    ensures 0 < n <= |writers|
  {
  }

  lemma UnwrittenLogged(log: seq<Record>, synced: nat, ds: seq<Done>, d: Done)
    requires LogOk(log, synced, ds, []) && !d.written
    ensures LogOk(log, synced, ds + [d], [])
  {
    DoneAdded(ds, d);
    assert Committed(ds) + [] == Committed(ds);
  }
}
