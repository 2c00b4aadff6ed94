/** Traces of the migration state machine: no step of any of them is denied by the quota checks, and
    every migration can be carried through or fail on the way.
 */
module MigrationTraces {
  import opened Api
  import opened Hierarchy
  import opened Moves
  import opened Resources
  import opened Quota
  import opened Admission
  import opened UpdateQuota
  import opened Migration

  ghost predicate Follows(p: Plan, tr: seq<State>, from: State, to: State)
    requires p.Valid()
    ensures Follows(p, tr, from, to) ==> |tr| > 0
  {
    Behaviour(p, tr) && tr[0] == from && tr[|tr| - 1] == to
  }

  lemma Extend(p: Plan, tr: seq<State>, from: State, s: State, s': State)
    requires p.Valid() && Follows(p, tr, from, s) && s.quota.Keys == p.tree.Nodes() && Next(p, s, s')
    ensures Follows(p, tr + [s'], from, s')
  {
    hide Next, Plan.Valid;
    var tr' := tr + [s'];
    forall i | 0 <= i < |tr'| - 1 && tr'[i].quota.Keys == p.tree.Nodes() ensures Next(p, tr'[i], tr'[i + 1]) {
      assert i < |tr| - 1 ==> tr'[i] == tr[i] && tr'[i + 1] == tr[i + 1];
    }
  }

  lemma Join(p: Plan, tr: seq<State>, tr': seq<State>, a: State, b: State, c: State)
    requires p.Valid() && Follows(p, tr, a, b) && Follows(p, tr', b, c)
    ensures Follows(p, tr + tr'[1..], a, c)
  {
    hide Next, Plan.Valid;
    var all := tr + tr'[1..];
    forall i | 0 <= i < |all| - 1 && all[i].quota.Keys == p.tree.Nodes() ensures Next(p, all[i], all[i + 1]) {
      if i < |tr| - 1 {
        assert all[i] == tr[i] && all[i + 1] == tr[i + 1];
      } else {
        var j := i - (|tr| - 1);
        assert all[i] == tr'[j] && all[i + 1] == tr'[j + 1];
      }
    }
  }

  lemma StayPut(p: Plan, s: State)
    requires p.Valid()
    ensures Follows(p, [s], s, s)
  {
    hide Plan.Valid, Next;
  }

  /** Adds one step to a trace from the start. */
  lemma Take(p: Plan, tr: seq<State>, s: State, s': State) returns (tr': seq<State>)
    requires p.Valid() && Follows(p, tr, Initial(p.start), s) && Invariant(p, s) && Next(p, s, s')
    ensures tr' == tr + [s'] && Follows(p, tr', Initial(p.start), s') && Invariant(p, s')
  {
    hide Next, Plan.Valid, Invariant, Behaviour;
    NextInvariant(p, s, s');
    Extend(p, tr, Initial(p.start), s, s');
    tr' := tr + [s'];
  }

  // ---------- no step is denied ----------

  /** The quota checks admit the step, if it is one that they check. */
  ghost predicate Permitted(p: Plan, s: State, s': State)
    requires p.Valid() && Invariant(p, s)
  {
    && (WriteThere(p, s, s') ==>
          var n := p.There().Written(s.gone);
          && n in p.tree.parent
          && AdmitsQuota(Now(p, s), p.observed, n, Shifted(s.quota[n], p.Amount(), p.There().Sign(s.gone))))
    && (WriteBack(p, s, s') ==>
          var n, w := p.Back().Written(s.back), World(p.Moved(), s.quota);
          && Uniform(w, p.observed) && n in w.tree.parent
          && AdmitsQuota(w, p.observed, n, Shifted(s.quota[n], p.Amount(), p.Back().Sign(s.back))))
    && (CreateNew(p, s, s') ==>
          ParamsGiven(p.observed, s.quota[p.n]) && p.to in s.quota && ParentHasRoom(Now(p, s), p.to, s.quota[p.n]))
  }

  lemma StepPermitted(p: Plan, s: State, s': State)
    requires p.Valid() && Invariant(p, s)
    ensures Permitted(p, s, s')
  {
    hide IsTree, Invariant, Plan.Valid, AdmitsQuota, Uniform, ParentHasRoom, WriteThere, WriteBack, CreateNew, ParamsGiven;
    if WriteThere(p, s, s') {
      ThereAdmitted(p, s, s');
    }
    if WriteBack(p, s, s') {
      BackAdmitted(p, s, s');
    }
    if CreateNew(p, s, s') {
      CreateNewAdmitted(p, s, s');
      ToIsNotRoot(p);
    }
  }

  /** Over every interleaving, the quota checks deny none of the migration's writes. */
  lemma NeverDenied(p: Plan, tr: seq<State>, k: nat)
    requires p.Valid() && Behaviour(p, tr) && tr[0] == Initial(p.start) && k + 1 < |tr|
    ensures Invariant(p, tr[k]) && Permitted(p, tr[k], tr[k + 1])
  {
    hide Next, Invariant, Permitted, Plan.Valid;
    AlwaysAccounted(p, tr, k);
    StepPermitted(p, tr[k], tr[k + 1]);
  }

  // ---------- every migration can be carried through ----------

  /** The trace of a migration that ran to the end, together with its second UpdateQuota. */
  ghost predicate CompletedTrace(p: Plan, tr: seq<State>)
    requires p.Valid()
    ensures CompletedTrace(p, tr) ==> |tr| > 0
  {
    && Behaviour(p, tr) && tr[0] == Initial(p.start)
    && tr[|tr| - 1].phase == Complete
    && (p.HasQuota() ==> tr[|tr| - 1].back == p.Back().Length())
  }

  /** The rest of the first UpdateQuota. */
  lemma {:induction false} GoThere(p: Plan, tr: seq<State>, s: State) returns (tr': seq<State>, s': State)
    requires p.Valid() && Follows(p, tr, Initial(p.start), s) && Invariant(p, s) && s.asked
    ensures Follows(p, tr', Initial(p.start), s') && Invariant(p, s')
    ensures s' == s.(gone := p.There().Length(), quota := s'.quota)
    decreases p.There().Length() - s.gone
  {
    hide Plan.Valid, Behaviour, Plan.There, Uniform, Accounted, Shift;
    if s.gone == p.There().Length() {
      tr', s' := tr, s;
    } else {
      ThereWritable(p, s);
      var n := p.There().Written(s.gone);
      var next := s.(gone := s.gone + 1,
                     quota := Shift(World(p.tree, s.quota), n, p.Amount(), p.There().Sign(s.gone)).quota);
      assert WriteThere(p, s, next);
      var more := Take(p, tr, s, next);
      tr', s' := GoThere(p, more, next);
    }
  }

  lemma ThereWritable(p: Plan, s: State)
    requires p.Valid() && s.quota.Keys == p.tree.Nodes() && s.gone < p.There().Length()
    ensures p.There().Written(s.gone) in s.quota
  {
    hide IsTree, Uniform, Sound;
    RoutesOnTree(p);
  }

  lemma BackWritable(p: Plan, s: State)
    requires p.Valid() && s.quota.Keys == p.tree.Nodes() && s.back < p.Back().Length()
    ensures p.Back().Written(s.back) in s.quota
  {
    hide IsTree, Uniform, Sound;
    RoutesOnTree(p);
  }

  /** The rest of the second UpdateQuota. */
  lemma {:induction false} GoBack(p: Plan, tr: seq<State>, s: State) returns (tr': seq<State>, s': State)
    requires p.Valid() && Follows(p, tr, Initial(p.start), s) && Invariant(p, s) && s.askedBack
    ensures Follows(p, tr', Initial(p.start), s') && Invariant(p, s')
    ensures s' == s.(back := p.Back().Length(), quota := s'.quota)
    decreases p.Back().Length() - s.back
  {
    hide Plan.Valid, Behaviour, Plan.Back, Uniform, Accounted, Shift;
    if s.back == p.Back().Length() {
      tr', s' := tr, s;
    } else {
      BackWritable(p, s);
      var n := p.Back().Written(s.back);
      var next := s.(back := s.back + 1,
                     quota := Shift(World(p.tree, s.quota), n, p.Amount(), p.Back().Sign(s.back)).quota);
      assert WriteBack(p, s, next);
      var more := Take(p, tr, s, next);
      tr', s' := GoBack(p, more, next);
    }
  }

  /** Up to the moment at which the new Subnamespace can be created. */
  lemma Approach(p: Plan) returns (tr: seq<State>, s: State)
    requires p.Valid() && (p.HasQuota() ==> p.pointer == p.to)
    ensures Follows(p, tr, Initial(p.start), s) && Invariant(p, s)
    ensures s.phase == InProgress && s.sns == OldOnly && !s.relabelled && !s.askedBack && !s.lowered && s.back == 0
    ensures s.raised == p.HasQuota() && (p.HasQuota() ==> s.gone == p.There().Length())
  {
    hide Plan.Valid, Behaviour, Plan.There, Invariant, Plan.HasQuota;
    s := Initial(p.start);
    InitialInvariant(p);
    StayPut(p, s);
    tr := [s];
    if p.HasQuota() {
      var hard := RootShifted(s.quota[p.tree.root], p.Amount(), 1);
      var raised := s.(raised := true, quota := s.quota[p.tree.root := hard]);
      assert RaiseRoot(p, s, raised);
      tr := Take(p, tr, s, raised);
      var asked := raised.(asked := true);
      assert AskThere(p, raised, asked);
      tr := Take(p, tr, raised, asked);
      tr, s := GoThere(p, tr, asked);
    }
    var going := s.(phase := InProgress);
    assert Proceed(p, s, going);
    tr := Take(p, tr, s, going);
    s := going;
  }

  /** Every migration whose first UpdateQuota is sent to the destination has a trace that runs to the end. */
  lemma CompletionExists(p: Plan) returns (tr: seq<State>)
    requires p.Valid() && (p.HasQuota() ==> p.pointer == p.to)
    ensures CompletedTrace(p, tr)
  {
    hide Plan.Valid, Behaviour, Plan.There, Plan.Back, Invariant, Plan.HasQuota;
    var s;
    tr, s := Approach(p);
    var both := s.(sns := Both);
    assert CreateNew(p, s, both);
    tr := Take(p, tr, s, both);
    var moved := both.(sns := NewOnly);
    assert DeleteOld(p, both, moved);
    tr := Take(p, tr, both, moved);
    s := moved.(relabelled := true);
    assert Relabel(p, moved, s);
    tr := Take(p, tr, moved, s);
    if p.HasQuota() {
      tr, s := SettleUp(p, tr, s);
    }
    var done := s.(phase := Complete);
    assert Finish(p, s, done);
    tr := Take(p, tr, s, done);
  }

  /** No other can: without its first UpdateQuota a migration with a quota never completes. */
  lemma CompletesOnlyIfPointed(p: Plan, tr: seq<State>)
    requires p.Valid() && CompletedTrace(p, tr)
    ensures p.HasQuota() ==> p.pointer == p.to
  {
    hide IsTree, Uniform, Sound, Accounted, Behaviour, Plan.Valid, Plan.There, Plan.Back, Plan.HasQuota;
    AlwaysAccounted(p, tr, |tr| - 1);
  }

  /** A migration can be carried through if and only if it has no quota to move or the destination's
      crq-pointer names the destination. */
  lemma CompletableIff(p: Plan)
    requires p.Valid()
    ensures (exists tr :: CompletedTrace(p, tr)) <==> (p.HasQuota() ==> p.pointer == p.to)
  {
    hide CompletedTrace, Plan.Valid, Plan.HasQuota;
    if tr :| CompletedTrace(p, tr) {
      CompletesOnlyIfPointed(p, tr);
    }
    if p.HasQuota() ==> p.pointer == p.to {
      var tr := CompletionExists(p);
    }
  }

  lemma SettleUp(p: Plan, tr: seq<State>, s: State) returns (tr': seq<State>, s': State)
    requires p.Valid() && Follows(p, tr, Initial(p.start), s) && Invariant(p, s) && p.HasQuota()
    requires s.phase == InProgress && s.relabelled && !s.askedBack && !s.lowered
    ensures Follows(p, tr', Initial(p.start), s') && Invariant(p, s')
    ensures s'.phase == InProgress && s'.relabelled && s'.lowered && s'.back == p.Back().Length()
  {
    hide Plan.Valid, Behaviour, Plan.Back, Invariant, Plan.HasQuota;
    var asked := s.(askedBack := true);
    assert AskBack(p, s, asked);
    tr' := Take(p, tr, s, asked);
    var hard := RootShifted(asked.quota[p.tree.root], p.Amount(), -1);
    var lowered := asked.(lowered := true, quota := asked.quota[p.tree.root := hard]);
    assert LowerRoot(p, asked, lowered);
    tr' := Take(p, tr', asked, lowered);
    tr', s' := GoBack(p, tr', lowered);
  }

  // ---------- a migration that fails on the way ----------

  /** Every migration of a namespace with a quota has a trace in which deleting the old Subnamespace fails:
      it ends in Error, the tree is as before, and the root keeps the amount it was raised by. */
  lemma FailedDeleteLeavesRaise(p: Plan) returns (tr: seq<State>)
    requires p.Valid() && p.HasQuota() && p.pointer == p.to
    ensures Behaviour(p, tr) && tr[0] == Initial(p.start)
    ensures var last := tr[|tr| - 1];
            && last.phase == Error && last.sns == OldOnly && last.quota.Keys == p.tree.Nodes()
            && forall r :: r in p.observed ==>
                 Get(last.quota[p.tree.root], r) == Get(p.start[p.tree.root], r) + Get(p.Amount(), r)
  {
    hide Plan.Valid, Behaviour, Plan.There, Plan.Back, Plan.HasQuota, Uniform, Ordered;
    var s;
    tr, s := Approach(p);
    var both := s.(sns := Both);
    assert CreateNew(p, s, both);
    tr := Take(p, tr, s, both);
    var failed := both.(sns := OldOnly, phase := Error);
    assert RollBack(p, both, failed);
    tr := Take(p, tr, both, failed);
    assert forall r :: r in p.observed ==> RootAccounted(p, failed, r);
  }
}
