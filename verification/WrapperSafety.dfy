/**
 Safety of the thread-safe wrapper over every interleaving: reclamation,
 exactly-once resolution of modifications, and the refinement of eager
 modification by queued modification.
 */
module WrapperSafety {
  import opened Common
  import opened ThreadSafeWrapper

  /** Number of modifications that have run on a ref. */
  function Applied<I>(ref: Ref<I>): int {
    |ref.enqueued| - |ref.pending|
  }

  /** The item a wrapper that never defers would hold in this ref. */
  function Eager<I>(ref: Ref<I>): I {
    Fold(ref.initial, ref.enqueued)
  }

  ghost predicate Increasing<I>(mods: seq<Mod<I>>) {
    forall j, k :: 0 <= j < k < |mods| ==> mods[j].call < mods[k].call
  }

  /** The queue of a ref is the unapplied end of everything enqueued on it. */
  ghost predicate HistoryOk<I>(ref: Ref<I>) {
    && 0 <= Applied(ref)
    && ref.enqueued[Applied(ref)..] == ref.pending
    && ref.item == Fold(ref.initial, ref.enqueued[..Applied(ref)])
    && Increasing(ref.enqueued)
  }

  ghost predicate RefOk<I>(s: State<I>, r: nat, busy: set<nat>)
    requires r in s.mem
  {
    var ref := s.mem[r];
    && r < s.nextRef
    && ref.readerCount == s.inside[r] < READER_RANGE
    && HistoryOk(ref)
    && (forall k :: 0 <= k < |ref.enqueued| ==>
          ref.enqueued[k].call < |s.calls| && s.calls[ref.enqueued[k].call].target == Some(r))
    && (forall k :: 0 <= k < Applied(ref) ==> s.calls[ref.enqueued[k].call].runs == 1)
    && (r !in busy && s.inside[r] == 0 ==> s.ref == Some(r) && ref.pending == [])
  }

  ghost predicate Queued<I>(s: State<I>, i: nat)
    requires i < |s.calls|
  {
    var t := s.calls[i].target;
    t.Some? && t.value in s.mem && Holds(s.mem[t.value].pending, i)
  }

  /** Untouched while queued; afterwards run at most once, the context freed once,
      and the future complete with `applied` telling whether it ran. */
  ghost predicate CallOk<I>(s: State<I>, i: nat)
    requires i < |s.calls|
  {
    var c := s.calls[i];
    if c.target.None? then
      c.runs == 0 && c.contextFreed == 1 && (c.future.Some? ==> !c.future.value.complete)
    else if Queued(s, i) then
      c.runs == 0 && c.contextFreed == 0 && (c.future.Some? ==> !c.future.value.complete)
    else
      && c.runs <= 1 && c.contextFreed == 1
      && (c.future.Some? ==> c.future.value == Future(true, c.runs == 1))
  }

  ghost predicate RefsOk<I>(s: State<I>, busy: set<nat>) {
    forall r :: r in s.mem ==> RefOk(s, r, busy)
  }

  ghost predicate CallsOk<I>(s: State<I>) {
    forall i :: 0 <= i < |s.calls| ==> CallOk(s, i)
  }

  /** A ref being read exists, and a ref is destroyed at most once, never to return. */
  ghost predicate LifetimesOk<I>(s: State<I>) {
    && (forall r :: s.inside[r] > 0 ==> r in s.mem)
    && (forall r: nat :: s.destroyed[r] == Bit(r < s.nextRef && r !in s.mem))
  }

  /** The invariant, except that the refs in `busy` are being worked on under the lock. */
  ghost predicate InvAt<I>(s: State<I>, busy: set<nat>) {
    Attached(s) && RefsOk(s, busy) && LifetimesOk(s) && CallsOk(s)
  }

  /** What holds whenever the lock is free. */
  ghost predicate Inv<I>(s: State<I>) {
    InvAt(s, {})
  }

  /** The reader limit of the 16-bit counter, checkable before a read. */
  ghost predicate Allowed<I>(s: State<I>, op: Op<I>) {
    op.ReadBegin? && s.ref.Some? ==> s.inside[s.ref.value] + 1 < READER_RANGE
  }

  // ---- steps on one ref, under the lock ----

  lemma {:induction false} FoldConcat<I>(item: I, a: seq<Mod<I>>, b: seq<Mod<I>>)
    ensures Fold(item, a + b) == Fold(Fold(item, a), b)
  {
    if b == [] {
      assert a + b == a;
    } else {
      FoldConcat(item, a, b[..|b| - 1]);
      assert (a + b)[..|a + b| - 1] == a + b[..|b| - 1];
    }
  }

  lemma ApplyKeepsHistory<I>(ref: Ref<I>)
    requires HistoryOk(ref)
    ensures HistoryOk(ref.(item := Fold(ref.item, ref.pending), pending := []))
    ensures Fold(ref.item, ref.pending) == Eager(ref)
  {
    FoldConcat(ref.initial, ref.enqueued[..Applied(ref)], ref.pending);
    assert ref.enqueued[..Applied(ref)] + ref.pending == ref.enqueued;
    assert ref.enqueued[..|ref.enqueued|] == ref.enqueued;
  }

  lemma ApplyEmpty<I>(s: State<I>, r: nat)
    requires r in s.mem && s.mem[r].pending == []
    ensures ApplyModifications(s, r) == s
  {
    assert ResolveAll(s.calls, s.mem[r].pending, true) == s.calls;
    assert s.mem[r := s.mem[r]] == s.mem;
  }

  /** A call queued on one ref is not queued on another. */
  lemma QueuedOnTarget<I>(s: State<I>, busy: set<nat>, r: nat, i: nat)
    requires InvAt(s, busy) && r in s.mem && i < |s.calls| && Holds(s.mem[r].pending, i)
    ensures s.calls[i].target == Some(r) && Queued(s, i)
  {
    var ref := s.mem[r];
    var k :| 0 <= k < |ref.pending| && ref.pending[k].call == i;
    assert ref.enqueued[Applied(ref) + k] == ref.pending[k];
    assert RefOk(s, r, busy);
  }

  /** Emptying the queue of `r` and resolving what it held leaves every call in order. */
  lemma ResolveKeepsCall<I>(s: State<I>, s': State<I>, r: nat, applied: bool, i: nat)
    requires InvAt(s, {r}) && r in s.mem && i < |s.calls|
    requires s'.calls == ResolveAll(s.calls, s.mem[r].pending, applied)
    requires r in s'.mem ==> s'.mem[r].pending == []
    requires forall q :: q != r ==> (q in s.mem <==> q in s'.mem)
    requires forall q :: q != r && q in s.mem ==> s'.mem[q] == s.mem[q]
    ensures CallOk(s', i)
  {
    assert CallOk(s, i);
    if Holds(s.mem[r].pending, i) {
      QueuedOnTarget(s, {r}, r, i);
      assert !Queued(s', i);
    } else {
      assert Queued(s', i) <==> Queued(s, i);
    }
  }

  /** The calls that ran on a ref keep their run count while another queue is resolved. */
  lemma ResolveKeepsRuns<I>(s: State<I>, r: nat, applied: bool, q: nat, k: nat)
    requires InvAt(s, {r}) && r in s.mem && q in s.mem
    requires k < |s.mem[q].enqueued| && (k < Applied(s.mem[q]) || (q == r && applied))
    ensures var i := s.mem[q].enqueued[k].call;
            i < |s.calls| && ResolveAll(s.calls, s.mem[r].pending, applied)[i].runs == 1
  {
    assert RefOk(s, q, {r});
    var ref, i := s.mem[r], s.mem[q].enqueued[k].call;
    assert CallOk(s, i);
    if q == r && Applied(ref) <= k {
      assert ref.pending[k - Applied(ref)] == ref.enqueued[k];
      assert Holds(ref.pending, i);
      QueuedOnTarget(s, {r}, r, i);
    } else if Holds(ref.pending, i) {
      QueuedOnTarget(s, {r}, r, i);
    }
  }

  /** Any ref other than `r` is as good after the queue of `r` is resolved. */
  lemma ResolveKeepsOther<I>(s: State<I>, s': State<I>, r: nat, applied: bool, q: nat, busy: set<nat>)
    requires InvAt(s, {r}) && r in s.mem && q in s.mem && q != r
    requires s'.calls == ResolveAll(s.calls, s.mem[r].pending, applied)
    requires q in s'.mem && s'.mem[q] == s.mem[q] && s'.inside == s.inside && s'.nextRef == s.nextRef
    requires s.ref == Some(q) ==> s'.ref == Some(q)
    ensures RefOk(s', q, busy)
  {
    assert RefOk(s, q, {r});
    forall k | 0 <= k < Applied(s'.mem[q])
      ensures s'.calls[s'.mem[q].enqueued[k].call].runs == 1
    {
      ResolveKeepsRuns(s, r, applied, q, k);
    }
  }

  lemma ApplyKeepsRef<I>(s: State<I>, r: nat)
    requires InvAt(s, {r}) && r in s.mem
    ensures RefOk(ApplyModifications(s, r), r, {r})
    ensures ApplyModifications(s, r).mem[r].item == Eager(s.mem[r])
  {
    assert RefOk(s, r, {r});
    ApplyKeepsHistory(s.mem[r]);
    ApplyKeepsRuns(s, r);
  }

  lemma ApplyKeepsRuns<I>(s: State<I>, r: nat)
    requires InvAt(s, {r}) && r in s.mem
    ensures var s' := ApplyModifications(s, r);
            |s'.calls| == |s.calls| &&
            forall k :: 0 <= k < |s.mem[r].enqueued| ==>
              s.mem[r].enqueued[k].call < |s'.calls| && s'.calls[s.mem[r].enqueued[k].call].runs == 1
  {
    assert RefOk(s, r, {r});
    forall k | 0 <= k < |s.mem[r].enqueued|
      ensures ApplyModifications(s, r).calls[s.mem[r].enqueued[k].call].runs == 1
    {
      ResolveKeepsRuns(s, r, true, r, k);
    }
  }

  lemma ApplyKeepsInv<I>(s: State<I>, r: nat)
    requires InvAt(s, {r}) && r in s.mem
    ensures var s' := ApplyModifications(s, r);
            InvAt(s', {r}) && s'.mem[r].item == Eager(s.mem[r])
  {
    var s' := ApplyModifications(s, r);
    ApplyKeepsRef(s, r);
    forall i | 0 <= i < |s'.calls|
      ensures CallOk(s', i)
    {
      ResolveKeepsCall(s, s', r, true, i);
    }
    forall q | q in s'.mem
      ensures RefOk(s', q, {r})
    {
      if q != r { ResolveKeepsOther(s, s', r, true, q, {r}); }
    }
  }

  /** Destroying a ref nobody reads, and detaching it if it was attached. */
  ghost function Discard<I>(s: State<I>, r: nat): State<I>
    requires r in s.mem
  {
    DestroyRef(s, r).(ref := if s.ref == Some(r) then None else s.ref)
  }

  lemma DiscardKeepsCalls<I>(s: State<I>, r: nat)
    requires InvAt(s, {r}) && r in s.mem
    ensures CallsOk(Discard(s, r))
  {
    forall i | 0 <= i < |s.calls|
      ensures CallOk(Discard(s, r), i)
    {
      ResolveKeepsCall(s, Discard(s, r), r, false, i);
    }
  }

  lemma DiscardKeepsRefs<I>(s: State<I>, r: nat)
    requires InvAt(s, {r}) && r in s.mem
    ensures RefsOk(Discard(s, r), {})
  {
    forall q | q in Discard(s, r).mem
      ensures RefOk(Discard(s, r), q, {})
    {
      ResolveKeepsOther(s, Discard(s, r), r, false, q, {});
    }
  }

  lemma DiscardKeepsInv<I>(s: State<I>, r: nat)
    requires InvAt(s, {r}) && r in s.mem && s.inside[r] == 0
    ensures Inv(Discard(s, r))
  {
    assert RefOk(s, r, {r});
    DiscardKeepsRefs(s, r);
    DiscardKeepsCalls(s, r);
  }

  lemma CheckKeepsInv<I>(s: State<I>, r: nat)
    requires InvAt(s, {r}) && r in s.mem && s.inside[r] == 0 && s.ref == Some(r) && s.mem[r].pending == []
    ensures Inv(PostModificationCheckRelease(s, r))
  {
    if s.autoRelease.Some? && s.autoRelease.value(s.mem[r].item) {
      DiscardKeepsInv(s, r);
    } else {
      forall q | q in s.mem
        ensures RefOk(s, q, {})
      {
        assert RefOk(s, q, {r});
      }
    }
  }

  // ---- the elementary changes a section is made of ----

  lemma GetRefCases<I>(s: State<I>)
    requires Inv(s)
    ensures Inv(GetRef(s))
    ensures GetRef(s) == s || (s.ref.Some? && s.inside[s.ref.value] == 0 && GetRef(s) == Discard(s, s.ref.value))
  {
    if s.ref.Some? && s.mem[s.ref.value].readerCount == 0 {
      var r := s.ref.value;
      assert RefOk(s, r, {});
      ApplyEmpty(s, r);
      assert RefsOk(s, {r});
      CheckKeepsInv(s, r);
    }
  }

  lemma AttachKeepsInv<I>(s: State<I>, item: I)
    requires Inv(s) && s.ref.None?
    ensures Inv(Attach(s, item))
  {
    var s' := Attach(s, item);
    forall r | r in s'.mem
      ensures RefOk(s', r, {})
    {
      if r in s.mem { assert RefOk(s, r, {}); }
    }
    forall i | 0 <= i < |s.calls|
      ensures CallOk(s', i)
    {
      assert CallOk(s, i);
    }
  }

  /** A change of reader counts alone. */
  ghost function Recount<I>(s: State<I>, r: nat, count: nat, inside: multiset<nat>): State<I>
    requires r in s.mem
  {
    s.(mem := s.mem[r := s.mem[r].(readerCount := count)], inside := inside)
  }

  lemma RecountKeepsInv<I>(s: State<I>, r: nat, inside: multiset<nat>)
    requires Inv(s) && r in s.mem && inside[r] < READER_RANGE
    requires forall q :: q != r ==> inside[q] == s.inside[q]
    ensures InvAt(Recount(s, r, inside[r], inside), {r})
    ensures inside[r] > 0 ==> Inv(Recount(s, r, inside[r], inside))
  {
    RecountKeepsRefs(s, r, inside);
    RecountKeepsCalls(s, r, inside);
  }

  lemma RecountKeepsRefs<I>(s: State<I>, r: nat, inside: multiset<nat>)
    requires RefsOk(s, {}) && r in s.mem && inside[r] < READER_RANGE
    requires forall q :: q != r ==> inside[q] == s.inside[q]
    ensures RefsOk(Recount(s, r, inside[r], inside), {r})
    ensures inside[r] > 0 ==> RefsOk(Recount(s, r, inside[r], inside), {})
  {
    var s' := Recount(s, r, inside[r], inside);
    forall q | q in s'.mem
      ensures RefOk(s', q, {r}) && (inside[r] > 0 ==> RefOk(s', q, {}))
    {
      RecountKeepsRef(s, r, inside, q);
    }
  }

  lemma RecountKeepsRef<I>(s: State<I>, r: nat, inside: multiset<nat>, q: nat)
    requires r in s.mem && q in s.mem && RefOk(s, q, {}) && inside[r] < READER_RANGE
    requires q != r ==> inside[q] == s.inside[q]
    ensures var s' := Recount(s, r, inside[r], inside);
            RefOk(s', q, {r}) && (inside[r] > 0 ==> RefOk(s', q, {}))
  {
    var s' := Recount(s, r, inside[r], inside);
    assert s'.mem[q].(readerCount := s.mem[q].readerCount) == s.mem[q];
    assert HistoryOk(s'.mem[q]) && Applied(s'.mem[q]) == Applied(s.mem[q]);
  }

  lemma RecountKeepsCalls<I>(s: State<I>, r: nat, inside: multiset<nat>)
    requires CallsOk(s) && r in s.mem
    ensures CallsOk(Recount(s, r, inside[r], inside))
  {
    var s' := Recount(s, r, inside[r], inside);
    forall i | 0 <= i < |s.calls|
      ensures CallOk(s', i)
    {
      assert CallOk(s, i);
    }
  }

  /** A new call with its verdict; `mod` is put on the attached ref unless it was rejected. */
  ghost function Record<I>(s: State<I>, call: Call, ref: Ref<I>): State<I>
    requires Attached(s)
  {
    s.(mem := if s.ref.Some? then s.mem[s.ref.value := ref] else s.mem, calls := s.calls + [call])
  }

  lemma RecordKeepsCalls<I>(s: State<I>, call: Call, ref: Ref<I>, mods: seq<Mod<I>>)
    requires Inv(s) && call.target == s.ref
    requires s.ref.Some? ==> ref.pending == s.mem[s.ref.value].pending + mods
    requires forall k :: 0 <= k < |mods| ==> mods[k].call == |s.calls|
    requires CallOk(Record(s, call, ref), |s.calls|)
    ensures CallsOk(Record(s, call, ref))
  {
    var s' := Record(s, call, ref);
    forall i | 0 <= i < |s'.calls|
      ensures CallOk(s', i)
    {
      if i < |s.calls| {
        assert CallOk(s, i);
        var t := s.calls[i].target;
        if t.Some? && t == s.ref {
          var queue := s.mem[t.value].pending;
          assert forall k :: 0 <= k < |queue| ==> ref.pending[k] == queue[k];
          assert Holds(queue, i) <==> Holds(ref.pending, i);
        }
        assert Queued(s, i) <==> Queued(s', i);
      }
    }
  }

  lemma RecordKeepsOther<I>(s: State<I>, call: Call, ref: Ref<I>, q: nat)
    requires Inv(s) && q in s.mem && s.ref != Some(q)
    ensures RefOk(Record(s, call, ref), q, {})
  {
    assert RefOk(s, q, {});
  }

  lemma RejectKeepsInv<I>(s: State<I>, call: Call, ref: Ref<I>)
    requires Inv(s) && s.ref.None? && call.target.None? && call.runs == 0 && call.contextFreed == 1
    requires call.future.Some? ==> !call.future.value.complete
    ensures Inv(Record(s, call, ref))
  {
    RecordKeepsCalls(s, call, ref, []);
    forall q | q in s.mem
      ensures RefOk(Record(s, call, ref), q, {})
    {
      RecordKeepsOther(s, call, ref, q);
    }
  }

  lemma EagerKeepsHistory<I>(ref: Ref<I>, m: Mod<I>)
    requires HistoryOk(ref) && ref.pending == []
    requires forall k :: 0 <= k < |ref.enqueued| ==> ref.enqueued[k].call < m.call
    ensures HistoryOk(ref.(item := m.f(ref.item), enqueued := ref.enqueued + [m]))
  {
    var ref' := ref.(item := m.f(ref.item), enqueued := ref.enqueued + [m]);
    assert ref.enqueued[..Applied(ref)] == ref.enqueued;
    assert ref'.enqueued[..Applied(ref')] == ref'.enqueued;
    assert ref'.enqueued[..|ref'.enqueued| - 1] == ref.enqueued;
  }

  lemma QueueKeepsHistory<I>(ref: Ref<I>, m: Mod<I>)
    requires HistoryOk(ref)
    requires forall k :: 0 <= k < |ref.enqueued| ==> ref.enqueued[k].call < m.call
    ensures HistoryOk(ref.(pending := ref.pending + [m], enqueued := ref.enqueued + [m]))
  {
    var ref' := ref.(pending := ref.pending + [m], enqueued := ref.enqueued + [m]);
    assert ref'.enqueued[..Applied(ref)] == ref.enqueued[..Applied(ref)];
    assert ref'.enqueued[Applied(ref)..] == ref.enqueued[Applied(ref)..] + [m];
  }

  /** A modification run at once, before the check for auto release. */
  lemma RunAtOnceKeepsInv<I>(s: State<I>, f: I -> I, future: Option<Future>)
    requires Inv(s) && s.ref.Some? && s.inside[s.ref.value] == 0
    ensures var ref := s.mem[s.ref.value];
            var m := Mod(|s.calls|, f);
            Inv(Record(s, Resolved(Call(s.ref, 0, 0, future), true),
                       ref.(item := f(ref.item), enqueued := ref.enqueued + [m])))
  {
    var r, m := s.ref.value, Mod(|s.calls|, f);
    assert RefOk(s, r, {});
    var ref := s.mem[r].(item := f(s.mem[r].item), enqueued := s.mem[r].enqueued + [m]);
    var call := Resolved(Call(s.ref, 0, 0, future), true);
    EagerKeepsHistory(s.mem[r], m);
    RecordKeepsCalls(s, call, ref, []);
    forall q | q in s.mem
      ensures RefOk(Record(s, call, ref), q, {})
    {
      if q != r { RecordKeepsOther(s, call, ref, q); }
    }
  }

  lemma QueueKeepsInv<I>(s: State<I>, f: I -> I, future: Option<Future>)
    requires Inv(s) && s.ref.Some? && s.inside[s.ref.value] > 0
    requires future.Some? ==> !future.value.complete
    ensures var ref := s.mem[s.ref.value];
            var m := Mod(|s.calls|, f);
            Inv(Record(s, Call(s.ref, 0, 0, future),
                       ref.(pending := ref.pending + [m], enqueued := ref.enqueued + [m])))
  {
    var r, m := s.ref.value, Mod(|s.calls|, f);
    assert RefOk(s, r, {});
    var ref := s.mem[r].(pending := s.mem[r].pending + [m], enqueued := s.mem[r].enqueued + [m]);
    var call := Call(s.ref, 0, 0, future);
    QueueKeepsHistory(s.mem[r], m);
    assert ref.pending[|ref.pending| - 1] == m;
    RecordKeepsCalls(s, call, ref, [m]);
    forall q | q in s.mem
      ensures RefOk(Record(s, call, ref), q, {})
    {
      if q != r { RecordKeepsOther(s, call, ref, q); }
    }
  }

  // ---- whole steps ----

  lemma ReleaseKeepsInv<I>(s: State<I>, check: I -> bool)
    requires Inv(s)
    ensures Inv(DoRelease(s, check))
  {
    GetRefCases(s);
    var s1 := GetRef(s);
    if s1.ref.Some? && check(s1.mem[s1.ref.value].item) {
      var r := s1.ref.value;
      assert RefOk(s1, r, {});
      if s1.mem[r].readerCount == 0 {
        assert RefsOk(s1, {r});
        DiscardKeepsInv(s1, r);
      } else {
        DetachKeepsInv(s1);
      }
    }
  }

  /** Detaching a ref that is being read leaves it to its readers. */
  lemma DetachKeepsInv<I>(s: State<I>)
    requires Inv(s) && s.ref.Some? && s.inside[s.ref.value] > 0
    ensures Inv(s.(ref := None))
  {
    var s' := s.(ref := None);
    forall q | q in s.mem
      ensures RefOk(s', q, {})
    {
      assert RefOk(s, q, {});
    }
    forall i | 0 <= i < |s.calls|
      ensures CallOk(s', i)
    {
      assert CallOk(s, i);
    }
  }

  lemma ReadBeginIsRecount<I>(s: State<I>, r: nat)
    requires Attached(s) && GetRef(s).ref == Some(r)
    requires GetRef(s).mem[r].readerCount == GetRef(s).inside[r] && GetRef(s).inside[r] + 1 < READER_RANGE
    ensures var s1 := GetRef(s);
            var inside := s1.inside + multiset{r};
            DoReadBegin(s) == Recount(s1, r, inside[r], inside)
  {
  }

  lemma ReadBeginKeepsInv<I>(s: State<I>)
    requires Inv(s) && Allowed(s, ReadBegin)
    ensures Inv(DoReadBegin(s))
  {
    GetRefCases(s);
    var s1 := GetRef(s);
    if s1.ref.Some? {
      var r := s1.ref.value;
      assert RefOk(s1, r, {});
      ReadBeginIsRecount(s, r);
      RecountKeepsInv(s1, r, s1.inside + multiset{r});
    }
  }

  lemma ReadEndIsRecount<I>(s: State<I>, r: nat)
    requires Attached(s) && r in s.mem
    requires s.mem[r].readerCount == s.inside[r] && 0 < s.inside[r] < READER_RANGE
    ensures var inside := s.inside - multiset{r};
            var s1 := Recount(s, r, inside[r], inside);
            DoReadEnd(s, r) ==
              if inside[r] != 0 then s1
              else if s.ref != Some(r) then Discard(s1, r)
              else if s.mem[r].pending != [] then PostModificationCheckRelease(ApplyModifications(s1, r), r)
              else s1
  {
  }

  /** The section in which the last reader leaves. */
  lemma LastReaderKeepsInv<I>(s: State<I>, r: nat)
    requires InvAt(s, {r}) && r in s.mem && s.inside[r] == 0
    ensures s.ref != Some(r) ==> Inv(Discard(s, r))
    ensures s.ref == Some(r) ==> Inv(PostModificationCheckRelease(ApplyModifications(s, r), r))
    ensures s.ref == Some(r) && s.mem[r].pending == [] ==> Inv(s)
  {
    if s.ref != Some(r) {
      DiscardKeepsInv(s, r);
    } else {
      ApplyKeepsInv(s, r);
      CheckKeepsInv(ApplyModifications(s, r), r);
      if s.mem[r].pending == [] {
        forall q | q in s.mem
          ensures RefOk(s, q, {})
        {
          assert RefOk(s, q, {r});
        }
      }
    }
  }

  lemma ReadEndKeepsInv<I>(s: State<I>, r: nat)
    requires Inv(s) && s.inside[r] > 0
    ensures r in s.mem && Inv(DoReadEnd(s, r))
  {
    assert RefOk(s, r, {});
    var inside := s.inside - multiset{r};
    RecountKeepsInv(s, r, inside);
    ReadEndIsRecount(s, r);
    if inside[r] == 0 { LastReaderKeepsInv(Recount(s, r, inside[r], inside), r); }
  }

  /** The verdict on a new call once the ref it applies to has been settled. */
  ghost function Submit<I>(s: State<I>, f: I -> I, future: Option<Future>, auto: I): State<I>
    requires Attached(s)
  {
    if s.ref.None? then Record(s, Call(None, 0, 1, future), NewRef(auto))
    else
      var ref := s.mem[s.ref.value];
      var m := Mod(|s.calls|, f);
      if ref.readerCount == 0 then
        PostModificationCheckRelease(
          Record(s, Resolved(Call(s.ref, 0, 0, future), true),
                 ref.(item := f(ref.item), enqueued := ref.enqueued + [m])), s.ref.value)
      else
        Record(s, Call(s.ref, 0, 0, future),
               ref.(pending := ref.pending + [m], enqueued := ref.enqueued + [m]))
  }

  lemma EnqueueIsSubmit<I>(s: State<I>, f: I -> I, hasFuture: bool, auto: I)
    requires Attached(s)
    ensures DoEnqueue(s, f, hasFuture, auto) ==
            Submit(Settle(s, auto), f, if hasFuture then Some(Future(false, false)) else None, auto)
  {
  }

  lemma SubmitKeepsInv<I>(s: State<I>, f: I -> I, future: Option<Future>, auto: I)
    requires Inv(s) && (future.Some? ==> !future.value.complete)
    ensures Inv(Submit(s, f, future, auto))
  {
    if s.ref.None? {
      RejectKeepsInv(s, Call(None, 0, 1, future), NewRef(auto));
    } else {
      assert RefOk(s, s.ref.value, {});
      if s.inside[s.ref.value] == 0 {
        RunAtOnceKeepsInv(s, f, future);
        var ref := s.mem[s.ref.value];
        CheckFromInv(Record(s, Resolved(Call(s.ref, 0, 0, future), true),
                            ref.(item := f(ref.item), enqueued := ref.enqueued + [Mod(|s.calls|, f)])));
      } else {
        QueueKeepsInv(s, f, future);
      }
    }
  }

  lemma CheckFromInv<I>(s: State<I>)
    requires Inv(s) && s.ref.Some? && s.inside[s.ref.value] == 0
    ensures Inv(PostModificationCheckRelease(s, s.ref.value))
  {
    assert RefOk(s, s.ref.value, {});
    assert RefsOk(s, {s.ref.value});
    CheckKeepsInv(s, s.ref.value);
  }

  lemma EnqueueKeepsInv<I>(s: State<I>, f: I -> I, hasFuture: bool, auto: I)
    requires Inv(s)
    ensures Inv(DoEnqueue(s, f, hasFuture, auto))
  {
    AssignIfReleasedKeepsInv(s, auto);
    GetRefCases(s);
    EnqueueIsSubmit(s, f, hasFuture, auto);
    SubmitKeepsInv(Settle(s, auto), f, if hasFuture then Some(Future(false, false)) else None, auto);
  }

  lemma AssignIfReleasedKeepsInv<I>(s: State<I>, item: I)
    requires Inv(s)
    ensures Inv(if GetRef(s).ref.None? then Attach(GetRef(s), item) else GetRef(s))
  {
    GetRefCases(s);
    if GetRef(s).ref.None? { AttachKeepsInv(GetRef(s), item); }
  }

  /** Every step an allowed caller can take keeps the invariant. */
  lemma StepKeepsInv<I>(s: State<I>, op: Op<I>)
    requires Inv(s) && Allowed(s, op)
    ensures Inv(Step(s, op))
  {
    match op
    case Assign(_) => OwnerStepKeepsInv(s, op);
    case AssignIfReleased(_, _) => OwnerStepKeepsInv(s, op);
    case Release(_) => OwnerStepKeepsInv(s, op);
    case ReadBegin => ReadBeginKeepsInv(s);
    case ReadEnd(r) => if s.inside[r] > 0 { ReadEndKeepsInv(s, r); }
    case Enqueue(f, hasFuture, auto) => EnqueueKeepsInv(s, f, hasFuture, auto);
  }

  lemma OwnerStepKeepsInv<I>(s: State<I>, op: Op<I>)
    requires Inv(s) && (op.Assign? || op.AssignIfReleased? || op.Release?)
    ensures Inv(Step(s, op))
  {
    match op
    case Assign(item) => if s.ref.None? { AttachKeepsInv(s, item); }
    case AssignIfReleased(getItem, auto) =>
      AssignIfReleasedKeepsInv(s, if getItem.Some? then getItem.value else auto);
    case Release(check) =>
      if check.Some? { ReleaseKeepsInv(s, check.value); }
      else if s.autoRelease.Some? { ReleaseKeepsInv(s, s.autoRelease.value); }
  }

  // ---- what one step guarantees ----

  /** A call whose context is gone is settled: it never changes again. */
  ghost predicate CallsKept<I>(s: State<I>, s': State<I>) {
    && |s.calls| <= |s'.calls|
    && (forall i :: 0 <= i < |s.calls| && s.calls[i].contextFreed == 1 ==> s'.calls[i] == s.calls[i])
  }

  ghost predicate RefsKept<I>(s: State<I>, s': State<I>) {
    && (forall r :: r in s.mem && s.inside[r] > 0 ==> r in s'.mem && s'.mem[r] == s.mem[r])
    && (forall r :: r in s.mem && r in s'.mem ==>
          s'.mem[r].initial == s.mem[r].initial && s'.mem[r].enqueued == s.mem[r].enqueued)
    && (forall r :: r in s'.mem && r !in s.mem ==> s.nextRef <= r)
    && s.nextRef <= s'.nextRef
  }

  /** Changes that touch no ref under a reader and enqueue nothing. */
  ghost predicate Kept<I>(s: State<I>, s': State<I>) {
    s'.inside == s.inside && CallsKept(s, s') && RefsKept(s, s')
  }

  lemma ResolveKeeps<I>(s: State<I>, s': State<I>, r: nat, applied: bool)
    requires InvAt(s, {r}) && r in s.mem
    requires s'.calls == ResolveAll(s.calls, s.mem[r].pending, applied)
    ensures CallsKept(s, s')
  {
    forall i | 0 <= i < |s.calls| && s.calls[i].contextFreed == 1
      ensures s'.calls[i] == s.calls[i]
    {
      assert CallOk(s, i);
      if Holds(s.mem[r].pending, i) { QueuedOnTarget(s, {r}, r, i); }
    }
  }

  lemma ApplyKeeps<I>(s: State<I>, r: nat)
    requires InvAt(s, {r}) && r in s.mem && s.inside[r] == 0
    ensures Kept(s, ApplyModifications(s, r))
  {
    ResolveKeeps(s, ApplyModifications(s, r), r, true);
  }

  lemma CheckKeeps<I>(s: State<I>, r: nat)
    requires InvAt(s, {r}) && r in s.mem && s.inside[r] == 0
    ensures Kept(s, PostModificationCheckRelease(s, r))
  {
    ResolveKeeps(s, DestroyRef(s, r), r, false);
  }

  lemma CheckFromInvKeeps<I>(s: State<I>, r: nat)
    requires Inv(s) && r in s.mem && s.inside[r] == 0
    ensures Kept(s, PostModificationCheckRelease(s, r))
    ensures Kept(s, Discard(s, r))
  {
    assert RefsOk(s, {r});
    CheckKeeps(s, r);
    ResolveKeeps(s, Discard(s, r), r, false);
  }

  lemma GetRefKeeps<I>(s: State<I>)
    requires Inv(s)
    ensures Kept(s, GetRef(s))
  {
    GetRefCases(s);
    if s.ref.Some? && s.inside[s.ref.value] == 0 { CheckFromInvKeeps(s, s.ref.value); }
  }

  /** Ref numbers in use lie below the next one, and only existing refs are read. */
  ghost predicate Ground<I>(s: State<I>) {
    && (forall r :: r in s.mem ==> r < s.nextRef)
    && (forall r :: s.inside[r] > 0 ==> r in s.mem)
  }

  lemma InvGround<I>(s: State<I>, busy: set<nat>)
    requires InvAt(s, busy)
    ensures Ground(s)
  {
    forall r | r in s.mem
      ensures r < s.nextRef
    {
      assert RefOk(s, r, busy);
    }
  }

  /**
   A step destroys no ref and runs no modification on one that is read before and
   after it; it never changes a settled call; and every ref that survives it has
   the same history, extended by at most the modification the step enqueues.
   */
  ghost predicate Guarantee<I>(s: State<I>, op: Op<I>, s': State<I>) {
    && (forall r :: s.inside[r] > 0 && s'.inside[r] > 0 ==>
          && r in s.mem && r in s'.mem
          && s'.mem[r].item == s.mem[r].item && Applied(s'.mem[r]) == Applied(s.mem[r]))
    && CallsKept(s, s')
    && (forall r :: r in s.mem && r in s'.mem ==>
          && s'.mem[r].initial == s.mem[r].initial
          && (|| s'.mem[r].enqueued == s.mem[r].enqueued
              || (op.Enqueue? && s'.mem[r].enqueued == s.mem[r].enqueued + [Mod(|s.calls|, op.f)])))
  }

  lemma KeptIsGuarantee<I>(s: State<I>, op: Op<I>, s': State<I>)
    requires Ground(s) && Kept(s, s')
    ensures Guarantee(s, op, s')
  {
  }

  lemma KeptTransitive<I>(s: State<I>, s1: State<I>, s2: State<I>)
    requires Ground(s) && Kept(s, s1) && Kept(s1, s2)
    ensures Kept(s, s2)
  {
    assert forall r :: r in s.mem && r in s2.mem ==> r in s1.mem;
  }

  lemma AttachKeeps<I>(s: State<I>, item: I)
    requires Ground(s)
    ensures Kept(s, Attach(s, item))
  {
  }

  lemma GuaranteeAfterKept<I>(s: State<I>, s1: State<I>, op: Op<I>, s': State<I>)
    requires Ground(s) && Kept(s, s1) && Guarantee(s1, op, s') && |s1.calls| == |s.calls|
    requires forall r :: r in s'.mem && r !in s1.mem ==> s1.nextRef <= r
    ensures Guarantee(s, op, s')
  {
    assert forall r :: r in s.mem && r in s'.mem ==> r in s1.mem;
  }

  lemma GuaranteeThenKept<I>(s: State<I>, op: Op<I>, s1: State<I>, s': State<I>)
    requires Ground(s) && Ground(s1) && Guarantee(s, op, s1) && Kept(s1, s') && s.nextRef <= s1.nextRef
    ensures Guarantee(s, op, s')
  {
    assert forall r :: r in s.mem && r in s'.mem ==> r in s1.mem;
  }

  lemma AssignKeeps<I>(s: State<I>, item: I)
    requires Inv(s)
    ensures Kept(s, if GetRef(s).ref.None? then Attach(GetRef(s), item) else GetRef(s))
  {
    GetRefKeeps(s);
    GetRefCases(s);
    InvGround(s, {});
    InvGround(GetRef(s), {});
    AttachKeeps(GetRef(s), item);
    KeptTransitive(s, GetRef(s), Attach(GetRef(s), item));
  }

  lemma ReleaseKeeps<I>(s: State<I>, check: I -> bool)
    requires Inv(s)
    ensures Kept(s, DoRelease(s, check))
  {
    GetRefKeeps(s);
    GetRefCases(s);
    InvGround(s, {});
    var s1 := GetRef(s);
    if s1.ref.Some? && check(s1.mem[s1.ref.value].item) {
      var r := s1.ref.value;
      if s1.mem[r].readerCount == 0 {
        assert RefOk(s1, r, {});
        CheckFromInvKeeps(s1, r);
        KeptTransitive(s, s1, Discard(s1, r));
      } else {
        KeptTransitive(s, s1, s1.(ref := None));
      }
    }
  }

  lemma RecountGuarantee<I>(s: State<I>, op: Op<I>, r: nat, count: nat, inside: multiset<nat>)
    requires Ground(s) && r in s.mem && forall q :: q != r ==> inside[q] == s.inside[q]
    ensures Guarantee(s, op, Recount(s, r, count, inside))
    ensures Ground(Recount(s, r, count, inside))
  {
  }

  lemma ReadBeginGuarantee<I>(s: State<I>)
    requires Inv(s)
    ensures Guarantee(s, ReadBegin, DoReadBegin(s))
  {
    GetRefKeeps(s);
    GetRefCases(s);
    InvGround(s, {});
    InvGround(GetRef(s), {});
    if GetRef(s).ref.None? {
      KeptIsGuarantee(s, ReadBegin, GetRef(s));
    } else {
      var s1 := GetRef(s);
      var r := s1.ref.value;
      ReadGuarantee(s, s1, r, (s1.mem[r].readerCount + 1) % READER_RANGE, s1.inside + multiset{r});
    }
  }

  lemma ReadGuarantee<I>(s: State<I>, s1: State<I>, r: nat, count: nat, inside: multiset<nat>)
    requires Ground(s) && Ground(s1) && Kept(s, s1) && |s1.calls| == |s.calls| && r in s1.mem
    requires forall q :: q != r ==> inside[q] == s1.inside[q]
    ensures Guarantee(s, ReadBegin, Recount(s1, r, count, inside))
  {
    RecountGuarantee(s1, ReadBegin, r, count, inside);
    GuaranteeAfterKept(s, s1, ReadBegin, Recount(s1, r, count, inside));
  }

  /** What the last reader leaving does to a ref keeps everything else. */
  lemma LastReaderKeeps<I>(s: State<I>, r: nat)
    requires InvAt(s, {r}) && r in s.mem && s.inside[r] == 0
    ensures Kept(s, Discard(s, r))
    ensures Kept(s, PostModificationCheckRelease(ApplyModifications(s, r), r))
  {
    ResolveKeeps(s, Discard(s, r), r, false);
    ApplyKeeps(s, r);
    ApplyKeepsInv(s, r);
    CheckKeeps(ApplyModifications(s, r), r);
    InvGround(s, {r});
    KeptTransitive(s, ApplyModifications(s, r), PostModificationCheckRelease(ApplyModifications(s, r), r));
  }

  lemma ReadEndGuarantee<I>(s: State<I>, r: nat)
    requires Inv(s) && s.inside[r] > 0 && r in s.mem
    ensures Guarantee(s, ReadEnd(r), DoReadEnd(s, r))
  {
    assert RefOk(s, r, {});
    var inside := s.inside - multiset{r};
    var s1 := Recount(s, r, inside[r], inside);
    InvGround(s, {});
    RecountKeepsInv(s, r, inside);
    RecountGuarantee(s, ReadEnd(r), r, inside[r], inside);
    ReadEndIsRecount(s, r);
    if inside[r] == 0 {
      LastReaderKeeps(s1, r);
      if DoReadEnd(s, r) != s1 { GuaranteeThenKept(s, ReadEnd(r), s1, DoReadEnd(s, r)); }
    }
  }

  lemma RecordGuarantee<I>(s: State<I>, op: Op<I>, call: Call, ref: Ref<I>)
    requires Ground(s) && Attached(s) && op.Enqueue?
    requires s.ref.Some? ==>
      && ref.initial == s.mem[s.ref.value].initial
      && ref.enqueued == s.mem[s.ref.value].enqueued + [Mod(|s.calls|, op.f)]
      && (s.inside[s.ref.value] > 0 ==>
            ref.item == s.mem[s.ref.value].item && Applied(ref) == Applied(s.mem[s.ref.value]))
    ensures Guarantee(s, op, Record(s, call, ref)) && Ground(Record(s, call, ref))
  {
  }

  lemma RunAtOnceGuarantee<I>(s: State<I>, op: Op<I>, call: Call, ref: Ref<I>)
    requires Ground(s) && op.Enqueue? && s.ref.Some? && s.ref.value in s.mem && s.inside[s.ref.value] == 0
    requires ref.initial == s.mem[s.ref.value].initial
    requires ref.enqueued == s.mem[s.ref.value].enqueued + [Mod(|s.calls|, op.f)]
    requires Inv(Record(s, call, ref))
    ensures Guarantee(s, op, PostModificationCheckRelease(Record(s, call, ref), s.ref.value))
  {
    var s1 := Record(s, call, ref);
    RecordGuarantee(s, op, call, ref);
    CheckFromInvKeeps(s1, s.ref.value);
    GuaranteeThenKept(s, op, s1, PostModificationCheckRelease(s1, s.ref.value));
  }

  lemma SubmitGuarantee<I>(s: State<I>, op: Op<I>, future: Option<Future>, auto: I)
    requires Inv(s) && op.Enqueue?
    ensures Guarantee(s, op, Submit(s, op.f, future, auto))
  {
    InvGround(s, {});
    if s.ref.None? {
      RecordGuarantee(s, op, Call(None, 0, 1, future), NewRef(auto));
    } else {
      var ref, m := s.mem[s.ref.value], Mod(|s.calls|, op.f);
      assert RefOk(s, s.ref.value, {});
      if ref.readerCount == 0 {
        RunAtOnceKeepsInv(s, op.f, future);
        RunAtOnceGuarantee(s, op, Resolved(Call(s.ref, 0, 0, future), true),
                           ref.(item := op.f(ref.item), enqueued := ref.enqueued + [m]));
      } else {
        RecordGuarantee(s, op, Call(s.ref, 0, 0, future),
                        ref.(pending := ref.pending + [m], enqueued := ref.enqueued + [m]));
      }
    }
  }

  lemma SubmitAddsNoRef<I>(s: State<I>, f: I -> I, future: Option<Future>, auto: I)
    requires Attached(s)
    ensures forall r :: r in Submit(s, f, future, auto).mem ==> r in s.mem
  {
  }

  /** The ref a modification goes to: brought up to date, or assigned automatically. */
  ghost function Settle<I>(s: State<I>, auto: I): (s': State<I>)
    requires Attached(s)
    ensures Attached(s')
  {
    var s1 := GetRef(s);
    if s1.ref.None? && s1.autoAssign then Attach(s1, auto) else s1
  }

  lemma SettleKeeps<I>(s: State<I>, auto: I)
    requires Inv(s)
    ensures Inv(Settle(s, auto)) && Kept(s, Settle(s, auto)) && |Settle(s, auto).calls| == |s.calls|
  {
    AssignIfReleasedKeepsInv(s, auto);
    AssignKeeps(s, auto);
    GetRefCases(s);
    GetRefKeeps(s);
  }

  lemma EnqueueGuarantee<I>(s: State<I>, op: Op<I>)
    requires Inv(s) && op.Enqueue?
    ensures Guarantee(s, op, DoEnqueue(s, op.f, op.hasFuture, op.auto))
  {
    InvGround(s, {});
    var s1 := Settle(s, op.auto);
    var future := if op.hasFuture then Some(Future(false, false)) else None;
    SettleKeeps(s, op.auto);
    EnqueueIsSubmit(s, op.f, op.hasFuture, op.auto);
    SubmitGuarantee(s1, op, future, op.auto);
    SubmitAddsNoRef(s1, op.f, future, op.auto);
    GuaranteeAfterKept(s, s1, op, Submit(s1, op.f, future, op.auto));
  }

  lemma AssignGuarantee<I>(s: State<I>, op: Op<I>)
    requires Inv(s) && (op.Assign? || op.AssignIfReleased?)
    ensures Guarantee(s, op, Step(s, op))
  {
    InvGround(s, {});
    if op.Assign? {
      AttachKeeps(s, op.item);
    } else {
      AssignKeeps(s, if op.getItem.Some? then op.getItem.value else op.auto);
    }
    KeptIsGuarantee(s, op, Step(s, op));
  }

  lemma ReleaseGuarantee<I>(s: State<I>, op: Op<I>)
    requires Inv(s) && op.Release?
    ensures Guarantee(s, op, Step(s, op))
  {
    InvGround(s, {});
    if op.check.Some? {
      ReleaseKeeps(s, op.check.value);
    } else if s.autoRelease.Some? {
      ReleaseKeeps(s, s.autoRelease.value);
    }
    KeptIsGuarantee(s, op, Step(s, op));
  }

  lemma StepGuarantee<I>(s: State<I>, op: Op<I>)
    requires Inv(s)
    ensures Guarantee(s, op, Step(s, op))
  {
    match op
    case Assign(_) => AssignGuarantee(s, op);
    case AssignIfReleased(_, _) => AssignGuarantee(s, op);
    case Release(_) => ReleaseGuarantee(s, op);
    case ReadBegin => ReadBeginGuarantee(s);
    case ReadEnd(r) =>
      InvGround(s, {});
      if s.inside[r] > 0 { ReadEndGuarantee(s, r); } else { KeptIsGuarantee(s, op, s); }
    case Enqueue(_, _, _) => EnqueueGuarantee(s, op);
  }
}
