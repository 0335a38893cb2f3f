/** What every interleaving of the broker's steps keeps. */
module BrokerRuns {
  import opened Options
  import opened Broker

  /** Steps of the poll loop and of the polls' goroutines. */
  predicate OfPoll(e: Event) {
    || e.NewPoll? || e.Register? || e.ReplyOffer? || e.Timeout? || e.RemoveFromPool? || e.ForgetId? || e.CloseReply?
  }

  lemma RangePoll(s: State, e: Event)
    requires OfPoll(e)
    requires InRange(s) && Possible(s, e)
    ensures InRange(Step(s, e))
  {
  }

  lemma RangeOther(s: State, e: Event)
    requires !OfPoll(e)
    requires InRange(s) && Possible(s, e)
    ensures InRange(Step(s, e))
  {
  }

  lemma RangeStep(s: State, e: Event)
    requires InRange(s) && Possible(s, e)
    ensures InRange(Step(s, e))
  {
    if OfPoll(e) { RangePoll(s, e); } else { RangeOther(s, e); }
  }

  lemma ClaimStep(s: State, e: Event)
    requires InRange(s) && OneClaim(s) && Possible(s, e)
    ensures OneClaim(Step(s, e))
  {
  }

  lemma FromClientsStep(s: State, e: Event)
    requires OffersFromClients(s) && Possible(s, e)
    ensures OffersFromClients(Step(s, e))
  {
    var t := Step(s, e);
    forall f | 0 <= f < |t.polls| && TookOffer(t.polls[f]) ensures CameFrom(t.clients, OfferOf(t.polls[f]), f) {
      if f < |s.polls| && TookOffer(s.polls[f]) {
        assert CameFrom(s.clients, OfferOf(s.polls[f]), f);
      }
    }
  }

  lemma ToPollsPoll(s: State, e: Event)
    requires OfPoll(e)
    requires InRange(s) && OneClaim(s) && OffersToPolls(s) && Possible(s, e)
    ensures OffersToPolls(Step(s, e))
  {
    var t := Step(s, e);
    forall c | 0 <= c < |t.clients| && HandedOver(t.clients[c]) ensures WentTo(t.polls, t.clients[c].flake, c) {
      if c < |s.clients| && HandedOver(s.clients[c]) {
        assert WentTo(s.polls, s.clients[c].flake, c);
      }
    }
  }

  lemma ToPollsOther(s: State, e: Event)
    requires !OfPoll(e)
    requires InRange(s) && OneClaim(s) && OffersToPolls(s) && Possible(s, e)
    ensures OffersToPolls(Step(s, e))
  {
    var t := Step(s, e);
    forall c | 0 <= c < |t.clients| && HandedOver(t.clients[c]) ensures WentTo(t.polls, t.clients[c].flake, c) {
      if c < |s.clients| && HandedOver(s.clients[c]) {
        assert WentTo(s.polls, s.clients[c].flake, c);
      }
    }
  }

  lemma ToPollsStep(s: State, e: Event)
    requires InRange(s) && OneClaim(s) && OffersToPolls(s) && Possible(s, e)
    ensures OffersToPolls(Step(s, e))
  {
    if OfPoll(e) { ToPollsPoll(s, e); } else { ToPollsOther(s, e); }
  }

  lemma NewReply(s: State, f: nat, offer: Option<nat>)
    requires OneReply(s) && f < |s.polls| && !s.polls[f].Replied?
    ensures OneReply(SetPoll(s, f, Replied(offer)).(replies := s.replies + [Reply(f, offer)]))
  {
    var t := SetPoll(s, f, Replied(offer)).(replies := s.replies + [Reply(f, offer)]);
    assert forall r :: r in s.replies ==> r in t.replies;
    assert t.replies[|s.replies|] == Reply(f, offer);
  }

  lemma NoReply(s: State, t: State)
    requires OneReply(s) && t.replies == s.replies && |t.polls| >= |s.polls|
    requires forall f :: 0 <= f < |s.polls| ==>
               t.polls[f] == s.polls[f] || (!t.polls[f].Replied? && !s.polls[f].Replied?)
    requires forall f :: |s.polls| <= f < |t.polls| ==> t.polls[f] == Pushed
    ensures OneReply(t)
  {
  }

  lemma ReplyStep(s: State, e: Event)
    requires OneReply(s) && Possible(s, e)
    ensures OneReply(Step(s, e))
  {
    match e
    case ReplyOffer(f) =>
      NewReply(s, f, Some(s.polls[f].client));
    case CloseReply(f) =>
      NewReply(s, f, None);
    case _ =>
      NoReply(s, Step(s, e));
  }

  lemma IdPoll(s: State, e: Event)
    requires OfPoll(e)
    requires IdsMatch(s) && Possible(s, e)
    ensures IdsMatch(Step(s, e))
  {
  }

  lemma IdOther(s: State, e: Event)
    requires !OfPoll(e)
    requires IdsMatch(s) && Possible(s, e)
    ensures IdsMatch(Step(s, e))
  {
  }

  lemma IdStep(s: State, e: Event)
    requires IdsMatch(s) && Possible(s, e)
    ensures IdsMatch(Step(s, e))
  {
    if OfPoll(e) { IdPoll(s, e); } else { IdOther(s, e); }
  }

  lemma AnswerPoll(s: State, e: Event)
    requires OfPoll(e)
    requires AnswersMatch(s) && Possible(s, e)
    ensures AnswersMatch(Step(s, e))
  {
  }

  lemma AnswerOther(s: State, e: Event)
    requires !OfPoll(e)
    requires AnswersMatch(s) && Possible(s, e)
    ensures AnswersMatch(Step(s, e))
  {
  }

  lemma AnswerStep(s: State, e: Event)
    requires AnswersMatch(s) && Possible(s, e)
    ensures AnswersMatch(Step(s, e))
  {
    if OfPoll(e) { AnswerPoll(s, e); } else { AnswerOther(s, e); }
  }

  lemma NatStep(s: State, e: Event)
    requires NatsMatch(s) && Possible(s, e)
    ensures NatsMatch(Step(s, e))
  {
  }

  lemma AccountStep(s: State, e: Event)
    requires InRange(s) && Accounted(s) && Possible(s, e)
    ensures Accounted(Step(s, e))
  {
    var t := Step(s, e);
    forall f | 0 <= f < |t.polls| ensures f in t.shared.pooled || TimedOut(t.polls[f]) || Claimed(t, f) {
      if f < |s.polls| && Claimed(s, f) {
        var c :| 0 <= c < |s.clients| && Claiming(s.clients[c]) && s.clients[c].flake == f;
        assert Claiming(t.clients[c]) && t.clients[c].flake == f;
      } else if (e.PopRestricted? || e.PopUnrestricted?) && e.popped == Some(f) {
        assert Claiming(t.clients[e.client]) && t.clients[e.client].flake == f;
      }
    }
  }

  ghost predicate Safe(s: State) {
    && InRange(s) && OneClaim(s) && OffersFromClients(s) && OffersToPolls(s) && OneReply(s)
    && IdsMatch(s) && AnswersMatch(s) && NatsMatch(s) && Accounted(s)
  }

  lemma SafeStep(s: State, e: Event)
    requires Safe(s) && Possible(s, e)
    ensures Safe(Step(s, e))
  {
    RangeStep(s, e);
    ClaimStep(s, e);
    FromClientsStep(s, e);
    ToPollsStep(s, e);
    ReplyStep(s, e);
    IdStep(s, e);
    AnswerStep(s, e);
    NatStep(s, e);
    AccountStep(s, e);
  }

  lemma StepAt(states: seq<State>, events: seq<Event>, i: nat) returns (s: State, t: State)
    requires IsRun(states, events) && 0 < i < |states|
    ensures s == states[i - 1] && t == states[i] && Possible(s, events[i - 1]) && t == Step(s, events[i - 1])
  {
    s, t := states[i - 1], states[i];
    assert Takes(states, events, i - 1);
  }

  /** Every state of every interleaving is safe. */
  lemma {:induction false} EveryInterleavingIsSafe(states: seq<State>, events: seq<Event>, i: nat)
    requires IsRun(states, events) && i < |states|
    ensures Safe(states[i])
  {
    if i > 0 {
      EveryInterleavingIsSafe(states, events, i - 1);
      var s, t := StepAt(states, events, i);
      SafeStep(s, events[i - 1]);
    }
  }

  /** What is settled stays: made snowflakes, claims, replies, and what was posted. */
  ghost predicate Extends(s: State, t: State) {
    && s.shared.flakes <= t.shared.flakes && s.replies <= t.replies
    && |s.clients| <= |t.clients| && |s.posts| <= |t.posts|
    && (forall c :: 0 <= c < |s.clients| ==> Follows(s.clients[c], t.clients[c]))
    && (forall p :: 0 <= p < |s.posts| ==> t.posts[p].sid == s.posts[p].sid && t.posts[p].answer == s.posts[p].answer)
  }

  predicate Follows(k: Client, l: Client) {
    && l.natType == k.natType
    && (Claiming(k) ==> Claiming(l) && l.flake == k.flake)
    && (HandedOver(k) ==> HandedOver(l))
    && (k.Answered? ==> l.Answered? && l.answer == k.answer)
  }

  lemma ExtendsPoll(s: State, e: Event)
    requires OfPoll(e)
    requires Possible(s, e)
    ensures Extends(s, Step(s, e))
  {
  }

  lemma ExtendsOther(s: State, e: Event)
    requires !OfPoll(e)
    requires Possible(s, e)
    ensures Extends(s, Step(s, e))
  {
  }

  lemma ExtendsStep(s: State, e: Event)
    requires Possible(s, e)
    ensures Extends(s, Step(s, e))
  {
    if OfPoll(e) { ExtendsPoll(s, e); } else { ExtendsOther(s, e); }
  }

  lemma ExtendsChain(s: State, t: State, u: State)
    requires Extends(s, t) && Extends(t, u)
    ensures Extends(s, u)
  {
    forall c | 0 <= c < |s.clients| ensures Follows(s.clients[c], u.clients[c]) {
      assert Follows(s.clients[c], t.clients[c]) && Follows(t.clients[c], u.clients[c]);
    }
  }

  lemma ExtendsSelf(s: State)
    ensures Extends(s, s)
  {
  }

  lemma ExtendsNext(r: State, s: State, e: Event)
    requires Extends(r, s) && Possible(s, e)
    ensures Extends(r, Step(s, e))
  {
    ExtendsStep(s, e);
    ExtendsChain(r, s, Step(s, e));
  }

  lemma {:induction false} RunExtends(states: seq<State>, events: seq<Event>, i: nat, j: nat)
    requires IsRun(states, events) && i <= j < |states|
    ensures Extends(states[i], states[j])
  {
    if i < j {
      RunExtends(states, events, i, j - 1);
      var s, t := StepAt(states, events, j);
      ExtendsNext(states[i], s, events[j - 1]);
    } else {
      ExtendsSelf(states[i]);
    }
  }

  /** Two clients that claim the same snowflake, at whatever moments of a run, are one client. */
  lemma ClaimedByOneClient(states: seq<State>, events: seq<Event>, i: nat, c: nat, j: nat, d: nat)
    requires IsRun(states, events) && i <= j < |states|
    requires c < |states[i].clients| && d < |states[j].clients|
    requires Claiming(states[i].clients[c]) && Claiming(states[j].clients[d])
    requires states[i].clients[c].flake == states[j].clients[d].flake
    ensures c == d
  {
    RunExtends(states, events, i, j);
    EveryInterleavingIsSafe(states, events, j);
    assert Follows(states[i].clients[c], states[j].clients[c]);
  }

  predicate Claims(k: Client, f: nat) { Claiming(k) && k.flake == f }

  /** A poll is answered at most once in a run: with nothing, or with the offer of the one client that claimed its
      snowflake and handed its offer over. */
  lemma OneReplyPerPoll(states: seq<State>, events: seq<Event>, i: nat, j: nat, k: nat)
    requires IsRun(states, events) && i < |states|
    requires j < |states[i].replies| && k < |states[i].replies|
    ensures states[i].replies[j].flake == states[i].replies[k].flake ==> j == k
    ensures var r := states[i].replies[j];
            r.offer.Some? ==>
              forall d :: (0 <= d < |states[i].clients| && Claims(states[i].clients[d], r.flake)) <==>
                          d == r.offer.value
    ensures var r := states[i].replies[j];
            r.offer.None? ==>
              forall d :: 0 <= d < |states[i].clients| && HandedOver(states[i].clients[d]) ==>
                states[i].clients[d].flake != r.flake
  {
    EveryInterleavingIsSafe(states, events, i);
    var s := states[i];
    var r := s.replies[j];
    assert s.polls[r.flake] == Replied(r.offer);
    if r.offer.Some? {
      assert CameFrom(s.clients, OfferOf(s.polls[r.flake]), r.flake);
    } else {
      forall d | 0 <= d < |s.clients| && HandedOver(s.clients[d]) ensures s.clients[d].flake != r.flake {
        assert WentTo(s.polls, s.clients[d].flake, d);
      }
    }
  }

  /** The answer a client gets was posted, once and for it alone, under the Sid of the snowflake it claimed. */
  lemma AnswerCameUnderSid(states: seq<State>, events: seq<Event>, i: nat, c: nat)
    requires IsRun(states, events) && i < |states|
    requires c < |states[i].clients| && states[i].clients[c].Answered?
    ensures var s, k := states[i], states[i].clients[c];
            && k.flake < |s.shared.flakes| && k.post < |s.posts|
            && s.posts[k.post] == Delivered(s.shared.flakes[k.flake].sid, k.answer, k.flake, c)
  {
    EveryInterleavingIsSafe(states, events, i);
  }

  /** A client that is not unrestricted gets only an unrestricted proxy. */
  lemma NatRespected(states: seq<State>, events: seq<Event>, i: nat, c: nat)
    requires IsRun(states, events) && i < |states|
    requires c < |states[i].clients| && Claiming(states[i].clients[c]) &&
             states[i].clients[c].natType != NAT_UNRESTRICTED
    ensures states[i].clients[c].flake < |states[i].shared.flakes|
    ensures states[i].shared.flakes[states[i].clients[c].flake].natType == NAT_UNRESTRICTED
  {
    EveryInterleavingIsSafe(states, events, i);
    assert NatFits(states[i].shared, states[i].clients[c]);
  }

  /** The client is past the restricted pool without having taken from it. */
  predicate PassedRestricted(s: State, c: nat) {
    && c < |s.clients| && s.clients[c].natType == NAT_UNRESTRICTED
    && var k := s.clients[c];
       k.TriedRestricted? || k.Denied? ||
       (Claiming(k) && k.flake < |s.shared.flakes| && !InRestrictedPool(s.shared.flakes[k.flake]))
  }

  lemma PassedStep(s: State, e: Event, c: nat)
    requires InRange(s) && Possible(s, e) && PassedRestricted(Step(s, e), c) && e != PopRestricted(c, None)
    ensures PassedRestricted(s, c)
  {
  }

  /** An unrestricted client is refused, or given an unrestricted proxy, only after it found no restricted one. */
  lemma {:induction false} RestrictedProxiesFirst(states: seq<State>, events: seq<Event>, i: nat, c: nat)
    returns (at: nat)
    requires IsRun(states, events) && i < |states| && PassedRestricted(states[i], c)
    ensures at < i && events[at] == PopRestricted(c, None) && Pops(states[at].shared, true, None)
  {
    var s, t := StepAt(states, events, i);
    if events[i - 1] == PopRestricted(c, None) {
      at := i - 1;
    } else {
      EveryInterleavingIsSafe(states, events, i - 1);
      PassedStep(s, events[i - 1], c);
      at := RestrictedProxiesFirst(states, events, i - 1, c);
    }
  }
}
