/** The broker's matching of proxies and clients (broker/broker.go, broker/ipc.go) as an interleaved transition
    system: the poll loop, one goroutine per poll, the client handlers and the proxy answer handlers take their
    atomic steps in any order. */
module Broker {
  import opened Options

  const NAT_UNRESTRICTED := "unrestricted"

  /** A snowflake as it was polled for. Snowflakes are named by their position in `flakes`. */
  datatype Flake = Flake(sid: string, natType: string, clients: nat)

  /** GetPool: a snowflake's pool follows from its NAT type. */
  predicate InRestrictedPool(k: Flake) { k.natType != NAT_UNRESTRICTED }

  /** What the goroutines share: every snowflake made, those in a pool, and idToSnowflake. */
  datatype Shared = Shared(flakes: seq<Flake>, pooled: set<nat>, ids: map<string, nat>)

  /** Where the poll of a snowflake stands, in the loop and then in its own goroutine. */
  datatype Poll = Pushed | Serving | Holding(client: nat) | Expiring | Removed | Forgotten | Replied(offer: Option<nat>)

  /** A client handler. `Answered` remembers the post its answer came from; `cleaned` says that the handler has
      deleted its snowflake's id. */
  datatype Client =
    | Arrived(natType: string)
    | TriedRestricted(natType: string)
    | Denied(natType: string)
    | Matched(natType: string, flake: nat)
    | Awaiting(natType: string, flake: nat)
    | Answered(natType: string, flake: nat, answer: string, post: nat, cleaned: bool)
    | GaveUp(natType: string, flake: nat, cleaned: bool)

  /** A proxy answer handler. */
  datatype Post =
    | Posted(sid: string, answer: string)
    | Refused(sid: string, answer: string)
    | Found(sid: string, answer: string, flake: nat)
    | Delivered(sid: string, answer: string, flake: nat, client: nat)

  /** `replies` is the history of what went out on the polls' own channels. */
  datatype State = State(shared: Shared, polls: seq<Poll>, clients: seq<Client>, posts: seq<Post>, replies: seq<Reply>)

  datatype Reply = Reply(flake: nat, offer: Option<nat>)

  datatype Event =
    | NewPoll(sid: string, natType: string, clients: nat)
    | Register(flake: nat)
    | NewClient(natType: string)
    | PopRestricted(client: nat, popped: Option<nat>)
    | PopUnrestricted(client: nat, popped: Option<nat>)
    | TakeOffer(client: nat)
    | ReplyOffer(flake: nat)
    | Timeout(flake: nat)
    | RemoveFromPool(flake: nat)
    | ForgetId(flake: nat)
    | CloseReply(flake: nat)
    | NewPost(sid: string, answer: string)
    | LookUp(post: nat)
    | Deliver(post: nat, client: nat)
    | ClientTimeout(client: nat)
    | CleanUp(client: nat)

  const Empty := State(Shared([], {}, map[]), [], [], [], [])

  /** SnowflakePool.Pop: nothing from an empty pool, else one with the fewest clients. */
  predicate Pops(sh: Shared, restricted: bool, popped: Option<nat>) {
    match popped
    case None => forall f | 0 <= f < |sh.flakes| :: f in sh.pooled ==> InRestrictedPool(sh.flakes[f]) != restricted
    case Some(p) =>
      && p < |sh.flakes| && p in sh.pooled && InRestrictedPool(sh.flakes[p]) == restricted
      && forall f | 0 <= f < |sh.flakes| :: f in sh.pooled && InRestrictedPool(sh.flakes[f]) == restricted ==>
           sh.flakes[p].clients <= sh.flakes[f].clients
  }

  predicate IsPoll(s: State, f: nat) { f < |s.polls| && |s.polls| == |s.shared.flakes| }

  predicate Possible(s: State, e: Event) {
    match e
    case NewPoll(_, _, _) => |s.polls| == |s.shared.flakes|
    case NewClient(_) => true
    case NewPost(_, _) => true
    case Register(f) => IsPoll(s, f) && s.polls[f] == Pushed
    case PopRestricted(c, popped) =>
      c < |s.clients| && s.clients[c].Arrived? && s.clients[c].natType == NAT_UNRESTRICTED &&
        Pops(s.shared, true, popped)
    case PopUnrestricted(c, popped) =>
      && c < |s.clients| && Pops(s.shared, false, popped)
      && (s.clients[c].TriedRestricted? || (s.clients[c].Arrived? && s.clients[c].natType != NAT_UNRESTRICTED))
    case TakeOffer(c) =>
      c < |s.clients| && s.clients[c].Matched? && IsPoll(s, s.clients[c].flake) &&
        s.polls[s.clients[c].flake] == Serving
    case ReplyOffer(f) => IsPoll(s, f) && s.polls[f].Holding?
    case Timeout(f) => IsPoll(s, f) && s.polls[f] == Serving
    case RemoveFromPool(f) => IsPoll(s, f) && s.polls[f] == Expiring
    case ForgetId(f) => IsPoll(s, f) && s.polls[f] == Removed
    case CloseReply(f) => IsPoll(s, f) && s.polls[f] == Forgotten
    case LookUp(p) => p < |s.posts| && s.posts[p].Posted?
    case Deliver(p, c) =>
      && p < |s.posts| && s.posts[p].Found? && c < |s.clients| && s.clients[c].Awaiting?
      && s.clients[c].flake == s.posts[p].flake
    case ClientTimeout(c) => c < |s.clients| && s.clients[c].Awaiting?
    case CleanUp(c) =>
      && c < |s.clients| && (s.clients[c].Answered? || s.clients[c].GaveUp?) && !s.clients[c].cleaned
      && s.clients[c].flake < |s.shared.flakes|
  }

  // ---------- Steps on what is shared ----------

  function AddFlake(sh: Shared, k: Flake): Shared {
    Shared(sh.flakes + [k], sh.pooled + {|sh.flakes|}, sh.ids)
  }

  function SetId(sh: Shared, f: nat): Shared
    requires f < |sh.flakes|
  {
    sh.(ids := sh.ids[sh.flakes[f].sid := f])
  }

  function TakeOut(sh: Shared, f: nat): Shared {
    sh.(pooled := sh.pooled - {f})
  }

  function DeleteId(sh: Shared, f: nat): Shared
    requires f < |sh.flakes|
  {
    sh.(ids := sh.ids - {sh.flakes[f].sid})
  }

  // ---------- Steps of the system ----------

  function SetPoll(s: State, f: nat, p: Poll): State
    requires f < |s.polls|
  {
    s.(polls := s.polls[f := p])
  }

  function SetClient(s: State, c: nat, k: Client): State
    requires c < |s.clients|
  {
    s.(clients := s.clients[c := k])
  }

  function Popped(s: State, c: nat, popped: Option<nat>, otherwise: Client): State
    requires c < |s.clients|
  {
    match popped
    case None => SetClient(s, c, otherwise)
    case Some(f) => SetClient(s, c, Matched(s.clients[c].natType, f)).(shared := TakeOut(s.shared, f))
  }

  function Step(s: State, e: Event): State
    requires Possible(s, e)
  {
    match e
    case NewPoll(sid, nat_, n) => s.(shared := AddFlake(s.shared, Flake(sid, nat_, n)), polls := s.polls + [Pushed])
    case Register(f) => SetPoll(s, f, Serving).(shared := SetId(s.shared, f))
    case NewClient(nat_) => s.(clients := s.clients + [Arrived(nat_)])
    case PopRestricted(c, popped) => Popped(s, c, popped, TriedRestricted(s.clients[c].natType))
    case PopUnrestricted(c, popped) => Popped(s, c, popped, Denied(s.clients[c].natType))
    case TakeOffer(c) =>
      var f := s.clients[c].flake;
      SetPoll(SetClient(s, c, Awaiting(s.clients[c].natType, f)), f, Holding(c))
    case ReplyOffer(f) =>
      var offer := Some(s.polls[f].client);
      SetPoll(s, f, Replied(offer)).(replies := s.replies + [Reply(f, offer)])
    case Timeout(f) => SetPoll(s, f, Expiring)
    case RemoveFromPool(f) => SetPoll(s, f, Removed).(shared := TakeOut(s.shared, f))
    case ForgetId(f) => SetPoll(s, f, Forgotten).(shared := DeleteId(s.shared, f))
    case CloseReply(f) => SetPoll(s, f, Replied(None)).(replies := s.replies + [Reply(f, None)])
    case NewPost(sid, answer) => s.(posts := s.posts + [Posted(sid, answer)])
    case LookUp(p) =>
      var q := s.posts[p];
      s.(posts := s.posts[p := if q.sid in s.shared.ids then Found(q.sid, q.answer, s.shared.ids[q.sid])
                               else Refused(q.sid, q.answer)])
    case Deliver(p, c) =>
      var q := s.posts[p];
      SetClient(s, c, Answered(s.clients[c].natType, q.flake, q.answer, p, false))
        .(posts := s.posts[p := Delivered(q.sid, q.answer, q.flake, c)])
    case ClientTimeout(c) => SetClient(s, c, GaveUp(s.clients[c].natType, s.clients[c].flake, false))
    case CleanUp(c) =>
      SetClient(s, c, s.clients[c].(cleaned := true)).(shared := DeleteId(s.shared, s.clients[c].flake))
  }

  /** A run: the states passed through, and the step taken from each to the next. */
  ghost predicate IsRun(states: seq<State>, events: seq<Event>) {
    |states| == |events| + 1 && states[0] == Empty && forall i :: 0 <= i < |events| ==> Takes(states, events, i)
  }

  predicate Takes(states: seq<State>, events: seq<Event>, i: nat)
    requires i < |events| && |states| == |events| + 1
  {
    Possible(states[i], events[i]) && states[i + 1] == Step(states[i], events[i])
  }

  // ---------- What every run keeps ----------

  /** The client has popped a snowflake. */
  predicate Claiming(k: Client) { k.Matched? || HandedOver(k) }

  /** The client has handed its offer over. */
  predicate HandedOver(k: Client) { k.Awaiting? || k.Answered? || k.GaveUp? }

  /** The poll's goroutine has taken an offer. */
  predicate TookOffer(p: Poll) { p.Holding? || (p.Replied? && p.offer.Some?) }

  function OfferOf(p: Poll): nat
    requires TookOffer(p)
  {
    if p.Holding? then p.client else p.offer.value
  }

  /** The timer has won, or is winning, against the clients. */
  predicate TimedOut(p: Poll) { p == Removed || p == Forgotten || p == Replied(None) }

  /** Snowflakes named anywhere exist; a pooled one still waits and is unclaimed. */
  ghost predicate InRange(s: State) {
    && |s.polls| == |s.shared.flakes|
    && (forall f :: f in s.shared.pooled ==>
          f < |s.polls| && (s.polls[f] == Pushed || s.polls[f] == Serving || s.polls[f] == Expiring))
    && (forall c :: 0 <= c < |s.clients| && Claiming(s.clients[c]) ==>
          s.clients[c].flake < |s.polls| && s.clients[c].flake !in s.shared.pooled)
  }

  /** Every snowflake is claimed by at most one client. */
  ghost predicate OneClaim(s: State) {
    forall c, d :: 0 <= c < d < |s.clients| && Claiming(s.clients[c]) && Claiming(s.clients[d]) ==>
      s.clients[c].flake != s.clients[d].flake
  }

  /** An offer a poll holds or was sent comes from the client that claimed it and handed its offer over. */
  ghost predicate OffersFromClients(s: State) {
    forall f :: 0 <= f < |s.polls| && TookOffer(s.polls[f]) ==> CameFrom(s.clients, OfferOf(s.polls[f]), f)
  }

  predicate CameFrom(clients: seq<Client>, c: nat, f: nat) {
    c < |clients| && HandedOver(clients[c]) && clients[c].flake == f
  }

  /** A client that handed its offer over did so to the poll it claimed. */
  ghost predicate OffersToPolls(s: State) {
    forall c :: 0 <= c < |s.clients| && HandedOver(s.clients[c]) ==> WentTo(s.polls, s.clients[c].flake, c)
  }

  predicate WentTo(polls: seq<Poll>, f: nat, c: nat) {
    f < |polls| && TookOffer(polls[f]) && OfferOf(polls[f]) == c
  }

  /** A reply went to a poll exactly when the poll is in `Replied`, with that content and only once. */
  ghost predicate OneReply(s: State) {
    && (forall i :: 0 <= i < |s.replies| ==>
          s.replies[i].flake < |s.polls| && s.polls[s.replies[i].flake] == Replied(s.replies[i].offer))
    && (forall i, j :: 0 <= i < j < |s.replies| ==> s.replies[i].flake != s.replies[j].flake)
    && (forall f :: 0 <= f < |s.polls| && s.polls[f].Replied? ==> Reply(f, s.polls[f].offer) in s.replies)
  }

  /** The index, and every lookup made from it, finds a snowflake polled for under that Sid. */
  ghost predicate IdsMatch(s: State) {
    && (forall sid :: sid in s.shared.ids ==>
          s.shared.ids[sid] < |s.shared.flakes| && s.shared.flakes[s.shared.ids[sid]].sid == sid)
    && (forall p :: 0 <= p < |s.posts| && (s.posts[p].Found? || s.posts[p].Delivered?) ==>
          s.posts[p].flake < |s.shared.flakes| && s.shared.flakes[s.posts[p].flake].sid == s.posts[p].sid)
  }

  /** An answer a client holds is one that was delivered to it and to no other client. */
  ghost predicate AnswersMatch(s: State) {
    forall c :: 0 <= c < |s.clients| && s.clients[c].Answered? ==>
      && s.clients[c].post < |s.posts|
      && var q := s.posts[s.clients[c].post];
         q.Delivered? && q.answer == s.clients[c].answer && q.flake == s.clients[c].flake && q.client == c
  }

  /** A client whose NAT is not unrestricted only gets unrestricted proxies. */
  ghost predicate NatsMatch(s: State) {
    forall c :: 0 <= c < |s.clients| ==> NatFits(s.shared, s.clients[c])
  }

  predicate NatFits(sh: Shared, k: Client) {
    && (k.TriedRestricted? ==> k.natType == NAT_UNRESTRICTED)
    && (Claiming(k) ==>
          k.flake < |sh.flakes| && (k.natType == NAT_UNRESTRICTED || sh.flakes[k.flake].natType == NAT_UNRESTRICTED))
  }

  /** No snowflake is lost: it is pooled, claimed by a client, or timed out. */
  ghost predicate Accounted(s: State) {
    forall f :: 0 <= f < |s.polls| ==> f in s.shared.pooled || TimedOut(s.polls[f]) || Claimed(s, f)
  }

  ghost predicate Claimed(s: State, f: nat) {
    exists c :: 0 <= c < |s.clients| && Claiming(s.clients[c]) && s.clients[c].flake == f
  }
}
