/** The broker's shared state in place (broker/broker.go, broker/ipc.go): two pools with back-pointers and the id
    index. Each method is one atomic step and refines the step of the transition system on `View()`. */
module BrokerContext {
  import opened Options
  import opened SnowflakePool
  import B = Broker

  /** GetPool's test. */
  predicate Restricted(s: Snowflake) { s.natType != B.NAT_UNRESTRICTED }

  function FlakeOf(s: Snowflake): B.Flake { B.Flake(s.id, s.natType, s.clients) }

  ghost predicate Distinct(made: seq<Snowflake>) {
    forall i, j :: 0 <= i < j < |made| ==> made[i] != made[j]
  }

  ghost predicate Known(ids: map<string, Snowflake>, made: seq<Snowflake>) {
    forall sid :: sid in ids ==> ids[sid] in made
  }

  /** The snowflake's number in the order of creation. */
  ghost function NumberOf(made: seq<Snowflake>, s: Snowflake): (i: nat)
    requires s in made
    ensures i < |made| && made[i] == s
  {
    var i: nat :| i < |made| && made[i] == s;
    i
  }

  /** The shared state of the transition system: snowflakes by number. */
  ghost function ViewOf(made: seq<Snowflake>, pooled: set<Snowflake>, ids: map<string, Snowflake>): B.Shared
    requires Known(ids, made)
  {
    B.Shared(seq(|made|, i requires 0 <= i < |made| => FlakeOf(made[i])),
             set i: nat | i < |made| && made[i] in pooled,
             map sid | sid in ids :: NumberOf(made, ids[sid]))
  }

  lemma AddView(made: seq<Snowflake>, pooled: set<Snowflake>, ids: map<string, Snowflake>, s: Snowflake)
    requires Known(ids, made) && Distinct(made) && s !in made
    ensures Distinct(made + [s]) && Known(ids, made + [s])
    ensures ViewOf(made + [s], pooled + {s}, ids) == B.AddFlake(ViewOf(made, pooled, ids), FlakeOf(s))
  {
    var after, before := ViewOf(made + [s], pooled + {s}, ids), ViewOf(made, pooled, ids);
    assert after.flakes == before.flakes + [FlakeOf(s)];
    assert after.pooled == before.pooled + {|made|};
    forall sid | sid in ids ensures after.ids[sid] == before.ids[sid] {
      assert (made + [s])[before.ids[sid]] == ids[sid];
    }
  }

  lemma TakeOutView(made: seq<Snowflake>, pooled: set<Snowflake>, ids: map<string, Snowflake>, s: Snowflake)
    requires Known(ids, made) && Distinct(made) && s in made
    ensures ViewOf(made, pooled - {s}, ids) == B.TakeOut(ViewOf(made, pooled, ids), NumberOf(made, s))
  {
  }

  lemma SetIdView(made: seq<Snowflake>, pooled: set<Snowflake>, ids: map<string, Snowflake>, s: Snowflake)
    requires Known(ids, made) && s in made
    ensures Known(ids[s.id := s], made)
    ensures ViewOf(made, pooled, ids[s.id := s]) == B.SetId(ViewOf(made, pooled, ids), NumberOf(made, s))
  {
  }

  lemma DeleteIdView(made: seq<Snowflake>, pooled: set<Snowflake>, ids: map<string, Snowflake>, s: Snowflake)
    requires Known(ids, made) && s in made
    ensures ViewOf(made, pooled, ids - {s.id}) == B.DeleteId(ViewOf(made, pooled, ids), NumberOf(made, s))
  {
  }

  lemma PopsNone(made: seq<Snowflake>, pooled: set<Snowflake>, ids: map<string, Snowflake>, restricted: bool)
    requires Known(ids, made) && forall x :: x in pooled ==> Restricted(x) != restricted
    ensures B.Pops(ViewOf(made, pooled, ids), restricted, None)
  {
  }

  lemma PopsSome(made: seq<Snowflake>, pooled: set<Snowflake>, ids: map<string, Snowflake>, restricted: bool,
                 s: Snowflake)
    requires Known(ids, made) && s in made && s in pooled && Restricted(s) == restricted
    requires forall x :: x in pooled && Restricted(x) == restricted ==> s.clients <= x.clients
    ensures B.Pops(ViewOf(made, pooled, ids), restricted, Some(NumberOf(made, s)))
  {
  }

  /** Everything in a pool was made and has the pool's NAT type. */
  ghost predicate Belong(members: set<Snowflake>, made: seq<Snowflake>, restricted: bool) {
    forall s :: s in members ==> s in made && Restricted(s) == restricted
  }

  class Context {
    const unrestrictedPool: Pool
    const restrictedPool: Pool
    var idToSnowflake: map<string, Snowflake>
    ghost var made: seq<Snowflake>

    ghost predicate Valid()
      reads this, unrestrictedPool, restrictedPool, unrestrictedPool.h, restrictedPool.h, made
    {
      && unrestrictedPool != restrictedPool && Distinct(made) && Known(idToSnowflake, made)
      && PoolValid(false) && PoolValid(true) && Indexes()
    }

    /** One pool, for itself. */
    ghost predicate PoolValid(restricted: bool)
      reads this, PoolFor(restricted), PoolFor(restricted).h
    {
      PoolFor(restricted).Valid() && Belong(PoolFor(restricted).Members(), made, restricted)
    }

    /** Only a pooled snowflake has an index. */
    ghost predicate Indexes()
      reads this, unrestrictedPool, restrictedPool, made
    {
      forall s :: s in made && s.index != -1 ==> s in Pooled()
    }

    ghost function Pooled(): set<Snowflake>
      reads this, unrestrictedPool, restrictedPool
    {
      unrestrictedPool.Members() + restrictedPool.Members()
    }

    ghost function View(): B.Shared
      requires Known(idToSnowflake, made)
      reads this, unrestrictedPool, restrictedPool
    {
      ViewOf(made, Pooled(), idToSnowflake)
    }

    lemma PoolsApart(restricted: bool)
      requires PoolValid(restricted) && PoolValid(!restricted)
      ensures PoolFor(!restricted).Members() !! PoolFor(restricted).Members()
      ensures forall x :: x in PoolFor(!restricted).h ==> x !in PoolFor(restricted).h
    {
      var pool, other := PoolFor(restricted), PoolFor(!restricted);
      assert forall x :: x in pool.h ==> x in pool.Members();
      assert forall x :: x in other.h ==> x in other.Members();
    }

    function PoolFor(restricted: bool): Pool {
      if restricted then restrictedPool else unrestrictedPool
    }

    constructor ()
      ensures Valid() && View() == B.Empty.shared && fresh(unrestrictedPool) && fresh(restrictedPool)
    {
      unrestrictedPool := new Pool();
      restrictedPool := new Pool();
      idToSnowflake := map[];
      made := [];
    }

    /** The loop's first step for a poll: a new snowflake goes into the pool of its NAT type. */
    method AddPoll(id: string, proxyType: string, natType: string, clients: nat) returns (s: Snowflake)
      requires Valid()
      modifies this, unrestrictedPool, restrictedPool, unrestrictedPool.h, restrictedPool.h
      ensures Valid() && made == old(made) + [s] && idToSnowflake == old(idToSnowflake)
      ensures View() == B.AddFlake(old(View()), B.Flake(id, natType, clients))
    {
      var pool := PoolFor(natType != B.NAT_UNRESTRICTED);
      s := new Snowflake(id, proxyType, natType, clients);
      assert s !in made;
      AddView(made, Pooled(), idToSnowflake, s);
      made := made + [s];
      assert s !in pool.Members();
      pool.Push(s);
      assert PoolValid(Restricted(s)) && PoolValid(!Restricted(s));
      assert Pooled() == old(Pooled()) + {s};
      forall x | x in made && x.index != -1 ensures x in Pooled() {
        if x != s && x !in old(pool.h) { assert x.index == old(x.index); }
      }
    }

    /** The loop's second step: the id finds the snowflake, whatever it found before. */
    method Register(s: Snowflake)
      requires Valid() && s in made
      modifies this`idToSnowflake
      ensures Valid() && View() == B.SetId(old(View()), NumberOf(made, s))
    {
      SetIdView(made, Pooled(), idToSnowflake, s);
      idToSnowflake := idToSnowflake[s.id := s];
    }

    /** A snowflake that was made is at its index in the pool of its NAT type, or in none. */
    lemma InOwnPool(s: Snowflake)
      requires Valid() && s in made
      ensures s !in PoolFor(!Restricted(s)).h
      ensures var h := PoolFor(Restricted(s)).h;
              if s.index == -1 then s !in h else 0 <= s.index < |h| && h[s.index] == s
    {
      if s.index != -1 { assert s in Pooled(); }
    }

    /** The poll's timer fired: the snowflake leaves its pool, if no client has popped it. */
    method RemoveFromPool(s: Snowflake)
      requires Valid() && s in made
      modifies unrestrictedPool, restrictedPool, unrestrictedPool.h, restrictedPool.h
      ensures Valid() && View() == B.TakeOut(old(View()), NumberOf(made, s))
    {
      InOwnPool(s);
      var pool := PoolFor(Restricted(s));
      pool.Remove(s);
      assert PoolValid(Restricted(s)) && PoolValid(!Restricted(s));
      assert Pooled() == old(Pooled()) - {s};
      forall x | x in made && x.index != -1 ensures x in Pooled() {
        if x !in old(pool.h) { assert x.index == old(x.index); }
      }
      TakeOutView(made, old(Pooled()), idToSnowflake, s);
    }

    /** The id is forgotten, by the poll's goroutine or by the client that is done with the snowflake. */
    method ForgetId(s: Snowflake)
      requires Valid() && s in made
      modifies this`idToSnowflake
      ensures Valid() && View() == B.DeleteId(old(View()), NumberOf(made, s))
    {
      DeleteIdView(made, Pooled(), idToSnowflake, s);
      idToSnowflake := idToSnowflake - {s.id};
    }

    /** What a pool's Pop gave, by number. */
    ghost function Named(s: Snowflake?): Option<nat>
      requires s != null ==> s in made
      reads this
    {
      if s == null then None else Some(NumberOf(made, s))
    }

    /** One pop of one pool, on the snowflakes themselves. */
    method TakeLeast(restricted: bool) returns (s: Snowflake?)
      requires Valid()
      modifies unrestrictedPool, restrictedPool, unrestrictedPool.h, restrictedPool.h
      ensures Valid()
      ensures s == null ==> Pooled() == old(Pooled()) && forall x :: x in old(Pooled()) ==> Restricted(x) != restricted
      ensures s != null ==> s in made && s in old(Pooled()) && Restricted(s) == restricted
      ensures s != null ==> Pooled() == old(Pooled()) - {s}
      ensures s != null ==> forall x :: x in old(Pooled()) && Restricted(x) == restricted ==> s.clients <= x.clients
    {
      PoolsApart(restricted);
      var pool := PoolFor(restricted);
      ghost var other := PoolFor(!restricted);
      s := pool.Pop();
      assert other.h == old(other.h) && PoolValid(!restricted);
      assert PoolValid(restricted);
      assert s != null ==> Pooled() == old(Pooled()) - {s};
      forall x | x in made && x.index != -1 ensures x in Pooled() {
        if x !in old(pool.h) { assert x.index == old(x.index); }
      }
    }

    /** One pop of one pool. */
    method PopFrom(restricted: bool) returns (s: Snowflake?)
      requires Valid()
      modifies unrestrictedPool, restrictedPool, unrestrictedPool.h, restrictedPool.h
      ensures Valid() && (s != null ==> s in made)
      ensures B.Pops(old(View()), restricted, Named(s))
      ensures View() == if s == null then old(View()) else B.TakeOut(old(View()), NumberOf(made, s))
    {
      ghost var pooled := Pooled();
      s := TakeLeast(restricted);
      if s == null {
        PopsNone(made, pooled, idToSnowflake, restricted);
      } else {
        PopsSome(made, pooled, idToSnowflake, restricted, s);
        TakeOutView(made, pooled, idToSnowflake, s);
      }
    }

    /** matchSnowflake, uninterrupted: an unrestricted client tries the restricted proxies first, and everyone else
        only the unrestricted ones. */
    method MatchSnowflake(natType: string) returns (s: Snowflake?)
      requires Valid()
      modifies unrestrictedPool, restrictedPool, unrestrictedPool.h, restrictedPool.h
      ensures Valid() && (s != null ==> s in made)
      ensures natType != B.NAT_UNRESTRICTED ==> B.Pops(old(View()), false, Named(s))
      ensures natType == B.NAT_UNRESTRICTED ==>
                if B.Pops(old(View()), true, None) then B.Pops(old(View()), false, Named(s))
                else B.Pops(old(View()), true, Named(s))
      ensures View() == if s == null then old(View()) else B.TakeOut(old(View()), NumberOf(made, s))
    {
      if natType == B.NAT_UNRESTRICTED {
        s := PopFrom(true);
        if s != null {
          return;
        }
      }
      s := PopFrom(false);
    }

    /** ProxyAnswers' lookup. */
    method LookUp(sid: string) returns (s: Snowflake?)
      requires Valid()
      ensures s != null ==> s in made
      ensures Named(s) == if sid in View().ids then Some(View().ids[sid]) else None
    {
      if sid in idToSnowflake {
        s := idToSnowflake[sid];
      } else {
        s := null;
      }
    }
  }
}
