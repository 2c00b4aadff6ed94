/** The optimistic-concurrency update loop: apply the change to the local copy, write it if the stored
    version is still the one that was read, otherwise read again and retry.

    The server keeps every value ever stored, so a version is an index into that history.
 */
module ObjectContext {
  import opened Resources

  // ---------- one client against an arbitrary environment ----------

  /** What the rest of the world does around one round of the loop: the values stored and the deletion
      before the attempt, whether the write is refused for another reason than a conflict, the values
      stored and the deletion before the refresh, and whether the refresh gets an answer. */
  datatype Round<V> = Round(before: seq<V>, deleted: bool, denied: bool, between: seq<V>, gone: bool, refreshed: bool)

  /** The loop reports an error for `NotFound` and `Denied`; for `NotPresent` and `Vanished` it reports
      none although nothing was stored. */
  datatype Outcome = Committed | NotPresent | Vanished | NotFound | Denied | TimedOut

  /** The answer to one write. */
  datatype Reply = Accepted | Conflict | Missing | Refused

  class Server<V> {
    var history: seq<V>
    var deleted: bool

    constructor (initial: V)
      ensures history == [initial] && !deleted
    {
      history, deleted := [initial], false;
    }

    /** Others store values and possibly delete the object. */
    method Serve(values: seq<V>, gone: bool)
      modifies this
      ensures history == old(history) + values && deleted == (old(deleted) || gone)
    {
      history := history + values;
      if gone {
        deleted := true;
      }
    }
  }

  class Context<V> {
    const server: Server<V>
    var local: V
    var version: nat
    var present: bool

    constructor (server: Server<V>)
      requires |server.history| > 0
      ensures this.server == server && FreshOrStale() && present == !server.deleted
    {
      this.server := server;
      local, version, present := server.history[|server.history| - 1], |server.history| - 1, !server.deleted;
    }

    /** The local copy is either what its version stored, or its version is no longer the latest. */
    ghost predicate FreshOrStale()
      reads this, server
    {
      version < |server.history| && (local == server.history[version] || version + 1 < |server.history|)
    }

    /** Applies `change` to the local copy and tries to store it. */
    method Update(change: V -> V, denied: bool) returns (reply: Reply)
      requires version < |server.history|
      modifies this, server
      ensures local == change(old(local)) && server.deleted == old(server.deleted)
      ensures reply == if server.deleted then Missing
                       else if denied then Refused
                       else if old(version) + 1 == old(|server.history|) then Accepted
                       else Conflict
      ensures server.history == old(server.history) + (if reply == Accepted then [local] else [])
      ensures version == old(version) + (if reply == Accepted then 1 else 0)
    {
      local := change(local);
      if server.deleted {
        return Missing;
      }
      if denied {
        return Refused;
      }
      if version + 1 == |server.history| {
        server.history := server.history + [local];
        version := version + 1;
        return Accepted;
      }
      return Conflict;
    }

    /** Reads the object again, if an answer comes. */
    method Refresh(answered: bool) returns (gone: bool)
      requires |server.history| > 0
      modifies this
      ensures gone <==> answered && server.deleted
      ensures if answered && !gone
              then version + 1 == |server.history| && local == server.history[version]
              else version == old(version) && local == old(local)
    {
      gone := answered && server.deleted;
      if answered && !gone {
        local, version := server.history[|server.history| - 1], |server.history| - 1;
      }
    }

    /** One round of the loop; `TimedOut` means that it goes on. */
    method Attempt(change: V -> V, round: Round<V>) returns (outcome: Outcome)
      requires FreshOrStale()
      modifies this, server
      ensures outcome in {Committed, TimedOut} ==> FreshOrStale()
      ensures var gone := old(server.deleted) || round.deleted;
              var latest := round.before == [] && old(version) + 1 == old(|server.history|);
              && (outcome == NotFound <==> gone)
              && (outcome == Denied <==> !gone && round.denied)
              && (outcome == Committed <==> !gone && !round.denied && latest)
              && (outcome == Vanished <==> !gone && !round.denied && !latest && round.gone && round.refreshed)
              && (outcome == TimedOut <==> !gone && !round.denied && !latest && !(round.gone && round.refreshed))
      ensures outcome == Committed ==>
                server.history == old(server.history) + [change(old(server.history)[old(|server.history|) - 1])]
      ensures outcome in {NotFound, Denied} ==> server.history == old(server.history) + round.before
      ensures outcome in {Vanished, TimedOut} ==> server.history == old(server.history) + round.before + round.between
      ensures outcome == TimedOut ==>
                && server.deleted == round.gone
                && (version + 1 == |server.history| <==> round.refreshed)
    {
      server.Serve(round.before, round.deleted);
      var reply := Update(change, round.denied);
      match reply
      case Accepted => return Committed;
      case Missing => return NotFound;
      case Refused => return Denied;
      case Conflict =>
        server.Serve(round.between, round.gone);
        var gone := Refresh(round.refreshed);
        return if gone then Vanished else TimedOut;
    }

    /** Applies `change` until it is stored, is denied, the object is gone, or time is up.  The first round
        that ends the loop decides how: the object gone at the attempt is an error, the object found gone by
        the refresh after a conflict is not.  The history grows by what others stored and, on success, by
        exactly one application of `change` to the value stored last. */
    method ForceUpdate(change: V -> V, rounds: seq<Round<V>>) returns (outcome: Outcome, ghost others: seq<V>, ghost tried: nat)
      requires FreshOrStale()
      modifies this, server
      ensures outcome in {Committed, TimedOut} ==> FreshOrStale()
      ensures |old(server.history) + others| > 0
      ensures server.history == old(server.history) + others
                                + (if outcome == Committed
                                   then [change((old(server.history) + others)[|old(server.history) + others| - 1])] else [])
      ensures outcome == NotPresent <==> !old(present)
      ensures tried <= |rounds| && (tried == 0 <==> !old(present) || rounds == [])
      ensures old(present) && rounds != [] && (old(server.deleted) || rounds[0].deleted) ==> outcome == NotFound
      ensures tried == 0 ==> others == []
      ensures tried > 0 ==> others == Served(rounds, tried - 1) + rounds[tried - 1].before
                                      + (if outcome in {Vanished, TimedOut} then rounds[tried - 1].between else [])
      ensures var stale := old(version) + 1 < old(|server.history|);
              && (forall i :: 0 <= i < tried - 1 ==> !EndsAt(old(server.deleted), rounds, i, stale))
              && (tried > 0 ==>
                    var last := tried - 1;
                    var gone := GoneAt(old(server.deleted), rounds, last);
                    && (outcome == NotFound <==> gone)
                    && (outcome == Denied <==> !gone && rounds[last].denied)
                    && (outcome == Committed <==> !gone && !rounds[last].denied && Fresh(rounds, last, stale))
                    && (outcome == Vanished <==> !gone && !rounds[last].denied && !Fresh(rounds, last, stale) &&
                                                 rounds[last].gone && rounds[last].refreshed)
                    && (outcome == TimedOut <==> tried == |rounds| && !EndsAt(old(server.deleted), rounds, last, stale)))
    {
      hide EndsAt, GoneAt, GoneBy, Fresh, Served;
      others, tried := [], 0;
      if !present {
        return NotPresent, others, tried;
      }
      ghost var start, stale := server.history, version + 1 < |server.history|;
      StartFacts(old(server.deleted), rounds);
      if rounds != [] {
        RoundFacts(old(server.deleted), rounds, 0, stale);
      }
      for i := 0 to |rounds|
        invariant FreshOrStale() && server.history == start + others && others == Served(rounds, i)
        invariant tried == i && server.deleted == GoneBy(old(server.deleted), rounds, i)
        invariant version + 1 == |server.history| <==> (if i == 0 then !stale else rounds[i - 1].refreshed)
        invariant forall j :: 0 <= j < i ==> !EndsAt(old(server.deleted), rounds, j, stale)
      {
        RoundFacts(old(server.deleted), rounds, i, stale);
        ghost var round := rounds[i];
        Regroup(start, others, round.before);
        Regroup(start, others + round.before, round.between);
        others, tried := others + round.before, i + 1;
        outcome := Attempt(change, rounds[i]);
        if outcome != TimedOut {
          if outcome == Vanished {
            others := others + round.between;
          }
          return;
        }
        others := others + round.between;
      }
      if tried > 0 {
        RoundFacts(old(server.deleted), rounds, tried - 1, stale);
      }
      return TimedOut, others, tried;
    }
  }

  /** What others stored during the first `n` rounds. */
  ghost function Served<V>(rounds: seq<Round<V>>, n: nat): seq<V>
    requires n <= |rounds|
  {
    if n == 0 then [] else Served(rounds, n - 1) + rounds[n - 1].before + rounds[n - 1].between
  }

  /** The object is gone before round `i`. */
  ghost predicate GoneBy<V>(before: bool, rounds: seq<Round<V>>, i: nat)
    requires i <= |rounds|
  {
    before || exists j :: 0 <= j < i && (rounds[j].deleted || rounds[j].gone)
  }

  /** The object is gone when round `i` tries to store. */
  ghost predicate GoneAt<V>(before: bool, rounds: seq<Round<V>>, i: nat)
    requires i < |rounds|
  {
    GoneBy(before, rounds, i) || rounds[i].deleted
  }

  /** In round `i` the copy is the version stored last: it was so at the start or the refresh before got an
      answer, and nobody has written since. */
  ghost predicate Fresh<V>(rounds: seq<Round<V>>, i: nat, stale: bool)
    requires i < |rounds|
  {
    rounds[i].before == [] && (if i == 0 then !stale else rounds[i - 1].refreshed)
  }

  /** Round `i` ends the loop. */
  ghost predicate EndsAt<V>(before: bool, rounds: seq<Round<V>>, i: nat, stale: bool)
    requires i < |rounds|
  {
    GoneAt(before, rounds, i) || rounds[i].denied || Fresh(rounds, i, stale) || (rounds[i].gone && rounds[i].refreshed)
  }

  lemma StartFacts<V>(before: bool, rounds: seq<Round<V>>)
    ensures GoneBy(before, rounds, 0) == before && Served(rounds, 0) == []
  {
  }

  lemma RoundFacts<V>(before: bool, rounds: seq<Round<V>>, i: nat, stale: bool)
    requires i < |rounds|
    ensures GoneAt(before, rounds, i) <==> GoneBy(before, rounds, i) || rounds[i].deleted
    ensures GoneBy(before, rounds, i + 1) <==> GoneAt(before, rounds, i) || rounds[i].gone
    ensures Fresh(rounds, i, stale) <==> rounds[i].before == [] && (if i == 0 then !stale else rounds[i - 1].refreshed)
    ensures EndsAt(before, rounds, i, stale) <==>
            GoneAt(before, rounds, i) || rounds[i].denied || Fresh(rounds, i, stale) || (rounds[i].gone && rounds[i].refreshed)
    ensures Served(rounds, i + 1) == Served(rounds, i) + rounds[i].before + rounds[i].between
  {
  }

  lemma Regroup<V>(a: seq<V>, b: seq<V>, c: seq<V>)
    ensures a + b + c == a + (b + c)
  {
  }

  // ---------- any number of clients, interleaved ----------

  datatype Pc = Ready | Refreshing | Stored | Ended

  /** `applied` counts how often the change was applied since the object was last read. */
  datatype Client<V> = Client(local: V, version: nat, applied: nat, pc: Pc)

  datatype Writer = Own(client: nat) | Other

  /** `writers[v]` stored version `v + 1`. */
  datatype System<V> = System(history: seq<V>, writers: seq<Writer>, deleted: bool, clients: seq<Client<V>>)

  function Last<V>(s: System<V>): V
    requires |s.history| > 0
  {
    s.history[|s.history| - 1]
  }

  /** Client `i` applies its change and tries to store the result. */
  ghost predicate Attempt<V>(changes: seq<V -> V>, s: System<V>, i: nat, denied: bool, s': System<V>)
    requires i < |s.clients| == |changes| && |s.history| > 0
  {
    var c := s.clients[i];
    var v := changes[i](c.local);
    && c.pc == Ready
    && if s.deleted || denied then
         s' == s.(clients := s.clients[i := c.(local := v, applied := c.applied + 1, pc := Ended)])
       else if c.version == |s.history| - 1 then
         s' == s.(history := s.history + [v], writers := s.writers + [Own(i)],
                  clients := s.clients[i := c.(local := v, applied := c.applied + 1, pc := Stored)])
       else
         s' == s.(clients := s.clients[i := c.(local := v, applied := c.applied + 1, pc := Refreshing)])
  }

  /** Client `i` reads the object again; the read may fail, and the loop goes on with the old copy. */
  ghost predicate Refresh<V>(s: System<V>, i: nat, ok: bool, s': System<V>)
    requires i < |s.clients| && |s.history| > 0
  {
    var c := s.clients[i];
    && c.pc == Refreshing
    && if !ok then
         s' == s.(clients := s.clients[i := c.(pc := Ready)])
       else if s.deleted then
         s' == s.(clients := s.clients[i := c.(pc := Ended)])
       else
         s' == s.(clients := s.clients[i := Client(Last(s), |s.history| - 1, 0, Ready)])
  }

  /** Someone else stores a value, deletes the object or creates it again. */
  ghost predicate Outside<V>(s: System<V>, s': System<V>)
    requires |s.history| > 0
  {
    || s' == s.(deleted := true)
    || (&& |s'.history| == |s.history| + 1 && s.history <= s'.history
        && s' == s.(history := s'.history, writers := s.writers + [Other], deleted := false))
  }

  ghost predicate Next<V>(changes: seq<V -> V>, s: System<V>, s': System<V>)
    requires |s.clients| == |changes| && |s.history| > 0
  {
    || (exists i: nat, denied :: i < |s.clients| && Attempt(changes, s, i, denied, s'))
    || (exists i: nat, ok :: i < |s.clients| && Refresh(s, i, ok, s'))
    || Outside(s, s')
  }

  /** Every client starts with some stored version, not necessarily the latest. */
  ghost predicate Start<V>(changes: seq<V -> V>, s: System<V>) {
    && |s.history| > 0 && |s.writers| == |s.history| - 1 && |s.clients| == |changes|
    && (forall v :: 0 <= v < |s.writers| ==> s.writers[v] == Other)
    && forall i :: 0 <= i < |s.clients| ==>
         var c := s.clients[i];
         c.pc == Ready && c.applied == 0 && c.version < |s.history| && c.local == s.history[c.version]
  }

  ghost predicate ClientOk<V>(s: System<V>, i: nat)
    requires i < |s.clients|
  {
    var c := s.clients[i];
    && c.version < |s.history|
    && (c.pc == Ready && c.applied == 0 ==> c.local == s.history[c.version])
    && (c.pc == Ready && c.applied > 0 ==> c.version < |s.history| - 1)
    && (c.pc == Refreshing ==> c.applied > 0 && c.version < |s.history| - 1)
    && (c.pc == Stored ==> c.applied == 1)
    && (c.pc != Stored ==> Own(i) !in s.writers)
  }

  /** Version `v + 1`, if a client stored it, is one application of its change to version `v`. */
  ghost predicate StoredOnce<V>(changes: seq<V -> V>, s: System<V>, v: nat)
    requires v < |s.writers| == |s.history| - 1
  {
    match s.writers[v]
    case Other => true
    case Own(i) =>
      && i < |changes| && s.history[v + 1] == changes[i](s.history[v])
      && forall u :: 0 <= u < |s.writers| && s.writers[u] == Own(i) ==> u == v
  }

  ghost predicate Invariant<V>(changes: seq<V -> V>, s: System<V>) {
    && |s.history| > 0 && |s.writers| == |s.history| - 1 && |s.clients| == |changes|
    && (forall i: nat :: i < |s.clients| ==> ClientOk(s, i))
    && (forall v: nat :: v < |s.writers| ==> StoredOnce(changes, s, v))
  }

  lemma AttemptKeeps<V>(changes: seq<V -> V>, s: System<V>, i: nat, denied: bool, s': System<V>)
    requires Invariant(changes, s) && i < |s.clients| && Attempt(changes, s, i, denied, s')
    ensures Invariant(changes, s')
    ensures s'.writers != s.writers ==>
              && s'.writers == s.writers + [Own(i)] && s'.clients[i].applied == 1
              && s'.history == s.history + [changes[i](Last(s))]
  {
    assert ClientOk(s, i);
    forall j: nat | j < |s'.clients| ensures ClientOk(s', j) {
      assert ClientOk(s, j);
    }
    forall v: nat | v < |s'.writers| ensures StoredOnce(changes, s', v) {
      if v < |s.writers| {
        assert StoredOnce(changes, s, v);
        assert s'.writers[v] == s.writers[v] && s'.history[v] == s.history[v] && s'.history[v + 1] == s.history[v + 1];
      }
    }
  }

  lemma OutsideKeeps<V>(changes: seq<V -> V>, s: System<V>, s': System<V>)
    requires Invariant(changes, s) && Outside(s, s')
    ensures Invariant(changes, s')
  {
    forall j: nat | j < |s'.clients| ensures ClientOk(s', j) {
      assert ClientOk(s, j);
    }
    forall v: nat | v < |s'.writers| ensures StoredOnce(changes, s', v) {
      if v < |s.writers| {
        assert StoredOnce(changes, s, v);
        assert s'.writers[v] == s.writers[v] && s'.history[v] == s.history[v] && s'.history[v + 1] == s.history[v + 1];
      }
    }
  }

  lemma RefreshKeeps<V>(changes: seq<V -> V>, s: System<V>, i: nat, ok: bool, s': System<V>)
    requires Invariant(changes, s) && i < |s.clients| && Refresh(s, i, ok, s')
    ensures Invariant(changes, s')
  {
    forall j: nat | j < |s'.clients| ensures ClientOk(s', j) {
      assert ClientOk(s, j);
    }
    forall v: nat | v < |s'.writers| ensures StoredOnce(changes, s', v) {
      assert StoredOnce(changes, s, v);
    }
  }

  lemma NextKeeps<V>(changes: seq<V -> V>, s: System<V>, s': System<V>)
    requires Invariant(changes, s) && Next(changes, s, s')
    ensures Invariant(changes, s')
  {
    if Outside(s, s') {
      OutsideKeeps(changes, s, s');
    } else if i: nat, ok :| i < |s.clients| && Refresh(s, i, ok, s') {
      RefreshKeeps(changes, s, i, ok, s');
    } else {
      var i: nat, denied :| i < |s.clients| && Attempt(changes, s, i, denied, s');
      AttemptKeeps(changes, s, i, denied, s');
    }
  }

  ghost predicate Run<V>(changes: seq<V -> V>, tr: seq<System<V>>) {
    && |tr| > 0 && Start(changes, tr[0])
    && forall i :: 0 <= i < |tr| - 1 && |tr[i].clients| == |changes| && |tr[i].history| > 0 ==> Next(changes, tr[i], tr[i + 1])
  }

  /** Under every interleaving and every pattern of failed reads, each stored change is one application
      to the value stored just before it, and no client stores twice. */
  lemma {:induction false} ExactlyOnce<V>(changes: seq<V -> V>, tr: seq<System<V>>, k: nat)
    requires Run(changes, tr) && k < |tr|
    ensures Invariant(changes, tr[k])
  {
    if k > 0 {
      ExactlyOnce(changes, tr, k - 1);
      NextKeeps(changes, tr[k - 1], tr[k]);
    }
  }

  /** A change applied again to a copy that was not read again never gets stored. */
  lemma ReappliedNeverStored<V>(changes: seq<V -> V>, tr: seq<System<V>>, k: nat, i: nat, denied: bool)
    requires Run(changes, tr) && k + 1 < |tr| && i < |tr[k].clients| == |changes| && |tr[k].history| > 0
    requires Attempt(changes, tr[k], i, denied, tr[k + 1]) && tr[k].clients[i].applied > 0
    ensures tr[k + 1].history == tr[k].history && tr[k + 1].writers == tr[k].writers
  {
    ExactlyOnce(changes, tr, k);
    assert ClientOk(tr[k], i);
  }

  // ---------- adders ----------

  ghost predicate Adders(changes: seq<int -> int>, amounts: seq<int>) {
    |changes| == |amounts| && forall i, x :: 0 <= i < |changes| ==> changes[i](x) == x + amounts[i]
  }

  /** The amounts of the clients whose change is among the first `v` stored ones. */
  ghost function StoredAmounts(s: System<int>, amounts: seq<int>, v: nat): map<nat, int>
    requires v <= |s.writers|
  {
    map i: nat | i < |amounts| && Own(i) in s.writers[..v] :: amounts[i]
  }

  /** By how much others changed the value in the first `v` stored versions. */
  ghost function ForeignChange(s: System<int>, v: nat): int
    requires v <= |s.writers| == |s.history| - 1
  {
    if v == 0 then 0
    else ForeignChange(s, v - 1) + (if s.writers[v - 1] == Other then s.history[v] - s.history[v - 1] else 0)
  }

  lemma {:induction false} AddersUpTo(changes: seq<int -> int>, amounts: seq<int>, s: System<int>, v: nat)
    requires Adders(changes, amounts) && Invariant(changes, s) && v <= |s.writers|
    ensures s.history[v] == s.history[0] + Sum(StoredAmounts(s, amounts, v)) + ForeignChange(s, v)
  {
    hide Sum;
    if v == 0 {
      SumEmpty(StoredAmounts(s, amounts, 0));
    } else {
      AddersUpTo(changes, amounts, s, v - 1);
      assert StoredOnce(changes, s, v - 1);
      var before := StoredAmounts(s, amounts, v - 1);
      assert s.writers[..v] == s.writers[..v - 1] + [s.writers[v - 1]];
      match s.writers[v - 1]
      case Other =>
        assert StoredAmounts(s, amounts, v) == before;
      case Own(i) =>
        assert StoredAmounts(s, amounts, v) == before[i := amounts[i]];
        SumSet(before, i, amounts[i]);
    }
  }

  /** Concurrent additions change a quota by exactly the sum of the amounts that were stored, on top of
      whatever others change in between. */
  lemma AddersAddUp(changes: seq<int -> int>, amounts: seq<int>, tr: seq<System<int>>, k: nat)
    requires Adders(changes, amounts) && Run(changes, tr) && k < |tr|
    ensures |tr[k].history| > 0 && |tr[k].writers| == |tr[k].history| - 1
    ensures Last(tr[k]) == tr[k].history[0]
                           + Sum(map i: nat | i < |amounts| && Own(i) in tr[k].writers :: amounts[i])
                           + ForeignChange(tr[k], |tr[k].writers|)
  {
    hide Sum;
    var s := tr[k];
    ExactlyOnce(changes, tr, k);
    AddersUpTo(changes, amounts, s, |s.writers|);
    assert s.writers[..|s.writers|] == s.writers;
    assert StoredAmounts(s, amounts, |s.writers|) == map i: nat | i < |amounts| && Own(i) in s.writers :: amounts[i];
  }
}
