/** The MigrationHierarchy controller as it runs: one reconcile pass, step by step, any of which may fail.
    Its trace is a behaviour of the migration state machine, so everything proved of behaviours holds of it.
 */
module MigrationController {
  import opened Api
  import opened Hierarchy
  import opened Resources
  import opened Quota
  import opened Migration
  import opened MigrationTraces
  import QuotaSync

  /** Adds the amount to the root Hard map, resource by resource of the amount. */
  method ShiftRootHard(hard: ResourceList, amount: ResourceList, sign: int) returns (out: ResourceList)
    ensures out == RootShifted(hard, amount, sign)
    ensures out.Keys == hard.Keys + amount.Keys && forall r :: r in out ==> out[r] == Get(hard, r) + sign * Get(amount, r)
  {
    out := hard;
    var todo := amount.Keys;
    while todo != {}
      invariant todo <= amount.Keys && out.Keys == hard.Keys + (amount.Keys - todo)
      invariant forall r :: r in out ==> out[r] == Get(hard, r) + (if r in amount && r !in todo then sign * amount[r] else 0)
      decreases todo
    {
      var r :| r in todo;
      out := out[r := Get(out, r) + sign * Get(amount, r)];
      todo := todo - {r};
    }
    assert forall r :: r in out && r !in amount ==> sign * Get(amount, r) == 0;
  }

  /** The step of a pass that fails.  `AtRead` is any of the reads at its beginning; `AtRollBack` is a failed delete of the old Subnamespace whose roll-back
      fails as well; `AtDatabase` is any failure between the relabelling and the second UpdateQuota. */
  datatype Failure =
    | NoFailure | AtRead | AtRaise | AtAskThere | AtCreate | AtDelete | AtRollBack | AtRelabel | AtDatabase | AtAskBack | AtLower

  /** The root's own quota follows from whether it was raised and lowered. */
  lemma RootHolds(p: Plan, s: State, r: Resource)
    requires p.Valid() && Invariant(p, s) && r in p.observed
    ensures Get(s.quota[p.tree.root], r) ==
            Get(p.start[p.tree.root], r) + When(s.raised, Get(p.Amount(), r)) - When(s.lowered, Get(p.Amount(), r))
    ensures !p.HasQuota() ==> Get(p.Amount(), r) == 0
  {
    hide IsTree, Free, Sound, Uniform;
    assert RootAccounted(p, s, r);
    AmountFacts(p, r);
  }

  lemma OrderFacts(p: Plan, s: State)
    requires p.Valid() && Invariant(p, s)
    ensures s.phase == InProgress && p.HasQuota() ==> s.raised && s.asked && p.pointer == p.to
    ensures s.raised ==> p.HasQuota()
  {
    hide IsTree, Free, Sound, Uniform, Plan.Valid, Plan.There, Plan.Back, Plan.HasQuota;
  }

  class Controller {
    const plan: Plan
    var st: State

    constructor (plan: Plan)
      requires plan.Valid()
      ensures this.plan == plan && st == Initial(plan.start) && Invariant(plan, st)
    {
      this.plan := plan;
      this.st := Initial(plan.start);
      new;
      InitialInvariant(plan);
    }

    /** Takes one step of the state machine and records it. */
    ghost method Record(tr: seq<State>, from: State, s: State) returns (tr': seq<State>)
      requires plan.Valid() && Invariant(plan, s) && Follows(plan, tr, from, s) && Next(plan, s, st)
      ensures Follows(plan, tr', from, st) && Invariant(plan, st)
    {
      hide Next, Plan.Valid, Invariant, Behaviour;
      NextInvariant(plan, s, st);
      Extend(plan, tr, from, s, st);
      tr' := tr + [st];
    }

    /** Ends the migration where it stands. */
    method Fail(ghost tr: seq<State>, ghost from: State) returns (ghost tr': seq<State>)
      requires plan.Valid() && Invariant(plan, st) && Follows(plan, tr, from, st) && st.phase in {NoPhase, InProgress}
      modifies this
      ensures st == old(st).(phase := Error) && Invariant(plan, st) && Follows(plan, tr', from, st)
    {
      hide Plan.Valid, Accounted, Ordered, Uniform, Behaviour;
      ghost var s := st;
      st := st.(phase := Error);
      assert Abort(plan, s, st);
      tr' := Record(tr, from, s);
    }

    /** Raise the root and ask for the first UpdateQuota. */
    method Prepare(hasQuota: bool, failure: Failure) returns (ghost tr: seq<State>)
      requires plan.Valid() && Invariant(plan, st) && st.phase == NoPhase && !st.raised && !st.asked
      requires hasQuota <==> plan.HasQuota()
      modifies this
      ensures Invariant(plan, st) && Follows(plan, tr, old(st), st)
      ensures st.raised <==> hasQuota && failure != AtRaise
      ensures st.asked <==> hasQuota && failure !in {AtRaise, AtAskThere} && plan.pointer == plan.to
      ensures st == old(st).(phase := if hasQuota && !st.asked then Error else InProgress,
                             raised := st.raised, asked := st.asked, quota := st.quota)
    {
      hide Plan.Valid, Accounted, Ordered, Uniform, Plan.HasQuota, Behaviour;
      ghost var from, s := st, st;
      tr := [st];
      StayPut(plan, st);
      if hasQuota {
        if failure == AtRaise {
          tr := Fail(tr, from);
          return;
        }
        var root := plan.tree.root;
        var hard := ShiftRootHard(st.quota[root], plan.Amount(), 1);
        st := st.(raised := true, quota := st.quota[root := hard]);
        assert RaiseRoot(plan, s, st);
        tr := Record(tr, from, s);
        if failure == AtAskThere || plan.pointer != plan.to {
          tr := Fail(tr, from);
          return;
        }
        s := st;
        st := st.(asked := true);
        assert AskThere(plan, s, st);
        tr := Record(tr, from, s);
      }
      s := st;
      st := st.(phase := InProgress);
      assert Proceed(plan, s, st);
      tr := Record(tr, from, s);
    }

    /** Replace the Subnamespace. */
    method ReplaceSns(failure: Failure) returns (ghost tr: seq<State>)
      requires plan.Valid() && Invariant(plan, st) && st.phase == InProgress && st.sns == OldOnly
      requires plan.HasQuota() ==> st.gone == plan.There().Length()
      modifies this
      ensures Invariant(plan, st) && Follows(plan, tr, old(st), st)
      ensures st == old(st).(phase := if failure in {AtCreate, AtDelete, AtRollBack} then Error else InProgress,
                             sns := if failure in {AtCreate, AtDelete} then OldOnly
                                    else if failure == AtRollBack then Both
                                    else NewOnly)
    {
      hide Plan.Valid, Accounted, Ordered, Uniform, Plan.HasQuota, Behaviour;
      ghost var from, s := st, st;
      tr := [st];
      StayPut(plan, st);
      if failure == AtCreate {
        tr := Fail(tr, from);
        return;
      }
      st := st.(sns := Both);
      assert CreateNew(plan, s, st);
      tr := Record(tr, from, s);
      s := st;
      if failure == AtDelete {
        st := st.(sns := OldOnly, phase := Error);
        assert RollBack(plan, s, st);
        tr := Record(tr, from, s);
        return;
      }
      if failure == AtRollBack {
        tr := Fail(tr, from);
        return;
      }
      st := st.(sns := NewOnly);
      assert DeleteOld(plan, s, st);
      tr := Record(tr, from, s);
    }

    /** Relabel the namespaces and move them in the database. */
    method RelabelAll(failure: Failure) returns (ghost tr: seq<State>)
      requires plan.Valid() && Invariant(plan, st) && st.phase == InProgress && st.sns == NewOnly && !st.relabelled
      modifies this
      ensures Invariant(plan, st) && Follows(plan, tr, old(st), st)
      ensures st == old(st).(phase := if failure in {AtRelabel, AtDatabase} then Error else InProgress,
                             relabelled := failure != AtRelabel)
    {
      hide Plan.Valid, Accounted, Ordered, Uniform, Plan.HasQuota, Behaviour;
      ghost var from, s := st, st;
      tr := [st];
      StayPut(plan, st);
      if failure == AtRelabel {
        tr := Fail(tr, from);
        return;
      }
      st := st.(relabelled := true);
      assert Relabel(plan, s, st);
      tr := Record(tr, from, s);
      if failure == AtDatabase {
        tr := Fail(tr, from);
      }
    }

    /** Ask for the second UpdateQuota, lower the root without waiting, and finish. */
    method Settle(hasQuota: bool, failure: Failure) returns (ghost tr: seq<State>)
      requires plan.Valid() && Invariant(plan, st) && st.phase == InProgress && st.relabelled && !st.askedBack && !st.lowered
      requires hasQuota <==> plan.HasQuota()
      modifies this
      ensures Invariant(plan, st) && Follows(plan, tr, old(st), st)
      ensures st.lowered <==> hasQuota && failure !in {AtAskBack, AtLower}
      ensures st.askedBack <==> hasQuota && failure != AtAskBack
      ensures st == old(st).(phase := if hasQuota && failure in {AtAskBack, AtLower} then Error else Complete,
                             askedBack := st.askedBack, lowered := st.lowered, quota := st.quota)
    {
      hide Plan.Valid, Accounted, Ordered, Uniform, Plan.HasQuota, Behaviour;
      ghost var from, s := st, st;
      tr := [st];
      StayPut(plan, st);
      if hasQuota {
        if failure == AtAskBack {
          tr := Fail(tr, from);
          return;
        }
        st := st.(askedBack := true);
        assert AskBack(plan, s, st);
        tr := Record(tr, from, s);
        if failure == AtLower {
          tr := Fail(tr, from);
          return;
        }
        s := st;
        var root := plan.tree.root;
        var hard := ShiftRootHard(st.quota[root], plan.Amount(), -1);
        st := st.(lowered := true, quota := st.quota[root := hard]);
        assert LowerRoot(plan, s, st);
        tr := Record(tr, from, s);
      }
      s := st;
      st := st.(phase := Complete);
      assert Finish(plan, s, st);
      tr := Record(tr, from, s);
    }

    /** One reconcile pass.  `upq` is the phase in which the first UpdateQuota is found.

        An unfinished migration stays InProgress exactly while its UpdateQuota is neither Complete nor in
        Error and nothing failed so far; it is Complete exactly when the UpdateQuota is and no step failed;
        otherwise it is in Error.  The root's quota is back at its start if and only if the migration is
        Complete, the first pass failed before or at the raise, or nothing of the resource was to be moved. */
    method Reconcile(upq: Phase, failure: Failure) returns (ghost tr: seq<State>)
      requires plan.Valid() && Invariant(plan, st)
      requires st.phase == NoPhase ==> !st.raised && !st.asked
      requires st.phase in {NoPhase, InProgress} ==> st.sns == OldOnly && !st.relabelled && !st.askedBack && !st.lowered
      requires upq == Complete ==> st.gone == plan.There().Length()
      modifies this
      ensures Invariant(plan, st) && Follows(plan, tr, old(st), st)
      ensures old(st).phase in {Complete, Error} ==> st == old(st)
      ensures old(st).phase in {NoPhase, InProgress} ==>
                && st.phase in {InProgress, Complete, Error}
                && (plan.HasQuota() && upq == Error ==> st.phase == Error)
                && (st.phase == InProgress <==>
                    && plan.HasQuota() && upq !in {Complete, Error} && failure != AtRead
                    && (old(st).phase == NoPhase ==> plan.pointer == plan.to && failure !in {AtRaise, AtAskThere}))
                && (st.phase == Complete <==>
                    && failure !in {AtRead, AtCreate, AtDelete, AtRollBack, AtRelabel, AtDatabase}
                    && (plan.HasQuota() ==>
                          && upq == Complete && failure !in {AtAskBack, AtLower}
                          && (old(st).phase == NoPhase ==> plan.pointer == plan.to && failure !in {AtRaise, AtAskThere})))
      ensures old(st).phase in {NoPhase, InProgress} ==>
                && (st.phase == InProgress ==> st.asked && st.sns == OldOnly && !st.relabelled && !st.askedBack && !st.lowered)
                && (st.phase == Complete ==> st.sns == NewOnly && st.relabelled)
                && (st.lowered <==> plan.HasQuota() && st.phase == Complete)
                && forall r :: r in plan.observed ==>
                     (Get(st.quota[plan.tree.root], r) == Get(plan.start[plan.tree.root], r) <==>
                      || st.phase == Complete || (old(st).phase == NoPhase && failure in {AtRead, AtRaise})
                      || Get(plan.Amount(), r) == 0)
    {
      hide Plan.Valid, Accounted, Ordered, Uniform, Behaviour, Invariant;
      ghost var from := st;
      tr := [st];
      StayPut(plan, st);
      if st.phase == Complete || st.phase == Error {
        return;
      }
      tr := Pass(upq, failure);
      forall r | r in plan.observed
        ensures Get(st.quota[plan.tree.root], r) == Get(plan.start[plan.tree.root], r) <==>
                || st.phase == Complete || (from.phase == NoPhase && failure in {AtRead, AtRaise}) || Get(plan.Amount(), r) == 0
      {
        RootHolds(plan, st, r);
      }
    }

    /** The pass of an unfinished migration. */
    method Pass(upq: Phase, failure: Failure) returns (ghost tr: seq<State>)
      requires plan.Valid() && Invariant(plan, st) && st.phase in {NoPhase, InProgress}
      requires st.phase == NoPhase ==> !st.raised && !st.asked
      requires st.sns == OldOnly && !st.relabelled && !st.askedBack && !st.lowered
      requires upq == Complete ==> st.gone == plan.There().Length()
      modifies this
      ensures Invariant(plan, st) && Follows(plan, tr, old(st), st)
      ensures st.phase in {InProgress, Complete, Error}
      ensures st.phase == InProgress <==>
              && plan.HasQuota() && upq !in {Complete, Error} && failure != AtRead
              && (old(st).phase == NoPhase ==> plan.pointer == plan.to && failure !in {AtRaise, AtAskThere})
      ensures st.phase == Complete <==>
              && failure !in {AtRead, AtCreate, AtDelete, AtRollBack, AtRelabel, AtDatabase}
              && (plan.HasQuota() ==>
                    && upq == Complete && failure !in {AtAskBack, AtLower}
                    && (old(st).phase == NoPhase ==> plan.pointer == plan.to && failure !in {AtRaise, AtAskThere}))
      ensures st.phase == InProgress ==> st.asked && st.sns == OldOnly && !st.relabelled && !st.askedBack && !st.lowered
      ensures st.phase == Complete ==> st.sns == NewOnly && st.relabelled
      ensures st.raised <==> plan.HasQuota() && !(old(st).phase == NoPhase && failure in {AtRead, AtRaise})
      ensures st.lowered <==> plan.HasQuota() && st.phase == Complete
    {
      hide Plan.Valid, Accounted, Ordered, Uniform, Behaviour, Invariant, Plan.There;
      ghost var from := st;
      tr := [st];
      StayPut(plan, st);
      OrderFacts(plan, st);
      if failure == AtRead {
        tr := Fail(tr, from);
        return;
      }
      var zeroed := QuotaSync.IsZeroed(plan.Amount());
      var hasQuota := !zeroed;
      if st.phase == NoPhase {
        tr := Prepare(hasQuota, failure);
        if st.phase == Error {
          return;
        }
      }
      if hasQuota {
        if upq == Error {
          tr := Fail(tr, from);
          return;
        }
        if upq != Complete {
          return;
        }
      }
      ghost var mid := st;
      ghost var more := Finalise(hasQuota, failure);
      Join(plan, tr, more, from, mid, st);
      tr := tr + more[1..];
    }

    /** What a pass does once the first UpdateQuota is Complete. */
    method Finalise(hasQuota: bool, failure: Failure) returns (ghost tr: seq<State>)
      requires plan.Valid() && Invariant(plan, st) && st.phase == InProgress
      requires st.sns == OldOnly && !st.relabelled && !st.askedBack && !st.lowered
      requires (hasQuota <==> plan.HasQuota()) && (hasQuota ==> st.gone == plan.There().Length())
      modifies this
      ensures Invariant(plan, st) && Follows(plan, tr, old(st), st)
      ensures st.phase == if failure in {AtCreate, AtDelete, AtRollBack, AtRelabel, AtDatabase} then Error
                          else if hasQuota && failure in {AtAskBack, AtLower} then Error
                          else Complete
      ensures st.raised == old(st).raised && (st.lowered <==> hasQuota && st.phase == Complete)
      ensures st.phase == Complete ==> st.sns == NewOnly && st.relabelled
    {
      hide Plan.Valid, Accounted, Ordered, Uniform, Behaviour, Invariant, Plan.There, Plan.HasQuota;
      ghost var from := st;
      tr := ReplaceSns(failure);
      if st.phase == Error {
        return;
      }
      ghost var mid := st;
      ghost var more := RelabelAll(failure);
      Join(plan, tr, more, from, mid, st);
      tr := tr + more[1..];
      if st.phase == Error {
        return;
      }
      mid := st;
      more := Settle(hasQuota, failure);
      Join(plan, tr, more, from, mid, st);
      tr := tr + more[1..];
    }
  }
}
