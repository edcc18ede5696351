/** Whether the rate limit service holds what the policies ask for: the pushed snapshot
    against the cache, over the runs of both controllers, users and the API server. */
module QuotaServed {
  import opened Wrappers
  import opened ReferenceGrants
  import opened QuotaNotify
  import Q = QuotaController

  /** The service holds the snapshot recomputed from the cache; before the first push it
      holds nothing. */
  ghost predicate Serves(m: Q.State) {
    m.pushed.GetOr([]) == Q.Snapshot(m.cache)
  }

  lemma NothingServesNothing()
    ensures Serves(Q.START)
  {
    assert Q.SortedKeys({}) == [];
    assert Q.START.cache.Keys == {};
  }

  /** A reconcile is still to come: a key is pending, or a policy is being deleted, which ends
      in its disappearance and one more reconcile. */
  ghost predicate Owes(w: World) {
    w.dirty != {} || exists key :: key in w.policies && w.policies[key].deleting
  }

  lemma ReconcileServes(w: World, gs: seq<Grant>, a: Action)
    requires Enabled(w, a) && a.ReconcilePolicy? && (Serves(w.memory) || Owes(w))
    ensures Serves(Next(w, gs, a).memory) || Owes(Next(w, gs, a))
  {
    var w', key := Next(w, gs, a), a.key;
    var obj := Fetched(w, key, a.readOk);
    if Q.Errs(key, obj, w.memory.targets, a.env) {
      assert key in w'.dirty;
    } else if obj.Object? && obj.policy.deleting {
      assert key in w'.policies && w'.policies[key].deleting;
    } else {
      assert Serves(w'.memory);
    }
  }

  /** Every step keeps it: what the service holds is the recomputed snapshot, or a reconcile is
      still to come that pushes it. */
  lemma StepServes(w: World, gs: seq<Grant>, a: Action)
    requires Enabled(w, a) && (Serves(w.memory) || Owes(w))
    ensures Serves(Next(w, gs, a).memory) || Owes(Next(w, gs, a))
  {
    var w' := Next(w, gs, a);
    match a
    case ReconcilePolicy(_, _, _, _) => ReconcileServes(w, gs, a);
    case Restart => NothingServesNothing();
    case Change(key, _) => assert key in w'.dirty;
    case Delete(key) => assert key in w'.dirty;
    case Vanish(key) => assert key in w'.dirty;
    case ChangeRoute(_, _) => assert w'.dirty == w.dirty && w'.policies == w.policies;
    case ReconcileRoute(_, _) => assert w'.dirty == w.dirty && w'.policies == w.policies;
  }

  /** Hence over every run, whatever calls fail: with no policy pending and none being deleted,
      the service holds the snapshot recomputed from the cache. */
  lemma {:induction false} QuietRunsServe(trace: seq<World>, actions: seq<Action>, gs: seq<Grant>, n: nat)
    requires IsRun(trace, actions, gs) && n < |trace|
    ensures Serves(trace[n].memory) || Owes(trace[n])
  {
    if n == 0 {
      NothingServesNothing();
    } else {
      QuietRunsServe(trace, actions, gs, n - 1);
      assert Enabled(trace[n - 1], actions[n - 1]);
      StepServes(trace[n - 1], gs, actions[n - 1]);
    }
  }

  // ------------------------------------------------------- exactly when a push is forgotten

  /** The step takes the last pending key off while the service is behind: it reconciles a
      policy that is being deleted, and either its push fails, an error that the finalizer
      run discards, or it has no finalizer left and pushes nothing. */
  ghost predicate Forgets(w: World, a: Action) {
    && a.ReconcilePolicy? && a.readOk && a.key in w.policies && w.policies[a.key].deleting && w.dirty <= {a.key}
    && if a.key in w.finalizers then !a.env.pushOk && w.memory.pushed.GetOr([]) != Q.Snapshot(w.memory.cache - {a.key})
       else !Serves(w.memory)
  }

  lemma DeletingRemembersIff(w: World, gs: seq<Grant>, a: Action)
    requires Enabled(w, a) && a.ReconcilePolicy? && a.readOk && a.key in w.policies && w.policies[a.key].deleting
    ensures Serves(Next(w, gs, a).memory) || Next(w, gs, a).dirty != {} <==> !Forgets(w, a)
  {
    var w', key := Next(w, gs, a), a.key;
    assert w'.dirty == w.dirty - {key};
    assert w'.dirty == {} <==> w.dirty <= {key};
    if key !in w.finalizers {
      assert w'.memory == w.memory;
    } else if !a.env.pushOk {
      assert w'.memory.pushed == w.memory.pushed && w'.memory.cache == w.memory.cache - {key};
    } else {
      assert w'.memory.pushed == Some(Q.Snapshot(w'.memory.cache));
    }
  }

  lemma OtherRemembers(w: World, gs: seq<Grant>, a: Action)
    requires Enabled(w, a) && a.ReconcilePolicy? && !(a.readOk && a.key in w.policies && w.policies[a.key].deleting)
    ensures Serves(Next(w, gs, a).memory) || Next(w, gs, a).dirty != {}
  {
    var w', key := Next(w, gs, a), a.key;
    if Q.Errs(key, Fetched(w, key, a.readOk), w.memory.targets, a.env) {
      assert key in w'.dirty;
    } else {
      assert w'.memory.pushed == Some(Q.Snapshot(w'.memory.cache));
    }
  }

  /** Pending work alone, without waiting for deletions, tells whether the service is behind,
      exactly unless a step forgets a push. */
  lemma StepRemembersIff(w: World, gs: seq<Grant>, a: Action)
    requires Enabled(w, a) && (Serves(w.memory) || w.dirty != {})
    ensures Serves(Next(w, gs, a).memory) || Next(w, gs, a).dirty != {} <==> !Forgets(w, a)
  {
    if a.ReconcilePolicy? {
      if a.readOk && a.key in w.policies && w.policies[a.key].deleting {
        DeletingRemembersIff(w, gs, a);
      } else {
        OtherRemembers(w, gs, a);
      }
    } else if a.Restart? {
      NothingServesNothing();
    } else if a.Change? || a.Delete? || a.Vanish? {
      assert a.key in Next(w, gs, a).dirty;
    } else {
      assert Next(w, gs, a).dirty == w.dirty;
    }
  }

  /** It happens: the push of a finalizer run fails, and the old limits stay in force with
      nothing pending; the disappearance of the policy makes it pending again. */
  lemma FailedFinalizerPushIsForgotten(w: World, gs: seq<Grant>, a: Action)
    requires Enabled(w, a) && a.ReconcilePolicy? && a.readOk && a.finalizerOk && !a.env.pushOk
    requires a.key in w.policies && w.policies[a.key].deleting && a.key in w.finalizers && w.dirty == {a.key}
    requires Serves(w.memory) && Q.Snapshot(w.memory.cache) != Q.Snapshot(w.memory.cache - {a.key})
    ensures var w' := Next(w, gs, a);
            && w'.dirty == {} && !Serves(w'.memory)
            && Enabled(w', Vanish(a.key)) && Next(w', gs, Vanish(a.key)).dirty == {a.key}
  {
    StepRemembersIff(w, gs, a);
  }
}
