/**
 * One-time sign-in links (app/server-handlers/email-auth.ts), and the deletion of old ones
 * (app/lib/cloudflare/data/cloudflare-auth-retention.server.ts). Each statement is atomic; a request reads its clock
 * before its statement reaches the database, so readings arrive in any order. Times are milliseconds.
 */
module EmailSignIn {
  import opened Wrappers

  const HOUR: int := 60 * 60_000
  const LINK_TTL: int := 15 * 60_000
  const LINKS_PER_HOUR: nat := 5

  /** A row once recorded: `deleted` says it is no longer in the table, `signIns` how often it completed a sign-in. */
  datatype Link = Link(
    tokenHash: string, email: string, createdAt: int, expiresAt: int, usedAt: Option<int>, deleted: bool, signIns: nat)

  /** The links of an address created after that. */
  predicate IsRecent(link: Link, email: string, after: int) {
    link.email == email && link.createdAt > after
  }

  /** The table's count. */
  function Counted(links: seq<Link>, email: string, after: int): nat {
    if links == [] then 0 else
    var last := links[|links| - 1];
    Counted(links[..|links| - 1], email, after) + if !last.deleted && IsRecent(last, email, after) then 1 else 0
  }

  /** One insert, with its own count as its guard. */
  function Record(links: seq<Link>, tokenHash: string, email: string, now: int): seq<Link> {
    if Counted(links, email, now - HOUR) < LINKS_PER_HOUR
    then links + [Link(tokenHash, email, now, now + LINK_TTL, None, false, 0)] else links
  }

  predicate Claimable(link: Link, tokenHash: string, now: int) {
    !link.deleted && link.tokenHash == tokenHash && link.usedAt.None? && link.expiresAt > now
  }

  /** Marks the link used; the request whose update took effect signs in. */
  function Claim(links: seq<Link>, tokenHash: string, now: int): seq<Link> {
    seq(|links|, i requires 0 <= i < |links| =>
      if Claimable(links[i], tokenHash, now) then links[i].(usedAt := Some(now), signIns := links[i].signIns + 1)
      else links[i])
  }

  /** Rows an hour old are deleted, in whatever batches. */
  function Prune(links: seq<Link>, now: int, batch: set<nat>): seq<Link> {
    seq(|links|, i requires 0 <= i < |links| =>
      if i in batch && links[i].createdAt <= now - HOUR then links[i].(deleted := true) else links[i])
  }

  /** The links in the table that were sent to the address after that. */
  ghost function StillListed(links: seq<Link>, email: string, after: int): set<nat> {
    set i: nat | i < |links| && !links[i].deleted && links[i].email == email && links[i].createdAt > after
  }

  lemma ListedOn(links: seq<Link>, link: Link, email: string, after: int)
    ensures StillListed(links + [link], email, after) == StillListed(links, email, after)
            + if !link.deleted && link.email == email && link.createdAt > after then {|links|} else {}
  {
  }

  lemma {:induction false} CountedIsListed(links: seq<Link>, email: string, after: int)
    ensures Counted(links, email, after) == |StillListed(links, email, after)|
  {
    if links != [] {
      var shorter, last := links[..|links| - 1], links[|links| - 1];
      CountedIsListed(shorter, email, after);
      ListedOn(shorter, last, email, after);
      assert links == shorter + [last];
    }
  }

  /** That link is the token's, in the table, not used yet and not expired. */
  predicate Usable(links: seq<Link>, i: int, tokenHash: string, now: int) {
    && 0 <= i < |links| && links[i].tokenHash == tokenHash
    && !links[i].deleted && links[i].usedAt == None && now < links[i].expiresAt
  }

  class Tokens {
    var links: seq<Link>

    constructor ()
      ensures links == []
    {
      links := [];
    }

    /** Whether an email goes out: only when the link was recorded. */
    method Start(tokenHash: string, email: string, now: int) returns (sent: bool)
      modifies this
      ensures links == Record(old(links), tokenHash, email, now)
      ensures sent <==> |StillListed(old(links), email, now - 60 * 60_000)| < 5
      ensures links == old(links)
                + if sent then [Link(tokenHash, email, now, now + 15 * 60_000, None, false, 0)] else []
    {
      CountedIsListed(links, email, now - HOUR);
      var count := 0;
      assert links[..|links|] == links;
      for i := 0 to |links|
        invariant links == old(links)
        invariant count == Counted(links[..i], email, now - HOUR)
      {
        assert links[..i + 1][..i] == links[..i];
        if !links[i].deleted && IsRecent(links[i], email, now - HOUR) {
          count := count + 1;
        }
      }
      sent := count < LINKS_PER_HOUR;
      if sent {
        links := links + [Link(tokenHash, email, now, now + LINK_TTL, None, false, 0)];
      }
    }

    /** Which address a link is for, while it can still be used. */
    method Describe(tokenHash: string, now: int) returns (email: Option<string>)
      ensures email.Some? ==> exists i :: Usable(links, i, tokenHash, now) && email == Some(links[i].email)
      ensures email.None? ==> forall i :: !Usable(links, i, tokenHash, now)
      ensures email.None? ==> Claim(links, tokenHash, now) == links
    {
      for i := 0 to |links|
        invariant forall k | 0 <= k < i :: !Claimable(links[k], tokenHash, now)
      {
        assert Claimable(links[i], tokenHash, now) <==> Usable(links, i, tokenHash, now);
        if Claimable(links[i], tokenHash, now) {
          return Some(links[i].email);
        }
      }
      return None;
    }

    method Complete(tokenHash: string, now: int) returns (email: Option<string>)
      modifies this
      ensures links == Claim(old(links), tokenHash, now)
      ensures |links| == |old(links)| && forall i | 0 <= i < |links| ::
                links[i] == if Usable(old(links), i, tokenHash, now)
                            then old(links)[i].(usedAt := Some(now), signIns := old(links)[i].signIns + 1)
                            else old(links)[i]
      ensures email.Some? ==> exists i :: Usable(old(links), i, tokenHash, now) && email == Some(old(links)[i].email)
      ensures email.None? <==> links == old(links)
    {
      email := Describe(tokenHash, now);
      links := Claim(links, tokenHash, now);
      if email.Some? {
        ghost var i :| Usable(old(links), i, tokenHash, now) && email == Some(old(links)[i].email);
        assert links[i].usedAt.Some? && old(links)[i].usedAt.None?;
      }
    }
  }

  // ---------- Over every run ----------

  datatype Event =
    | Start(tokenHash: string, email: string, now: int)
    | Complete(tokenHash: string, now: int)
    | Sweep(now: int, batch: set<nat>)

  /** `swept` is the latest reading a deletion went by. */
  datatype World = World(links: seq<Link>, swept: Option<int>)

  function Next(world: World, event: Event): World {
    match event
    case Start(tokenHash, email, now) => world.(links := Record(world.links, tokenHash, email, now))
    case Complete(tokenHash, now) => world.(links := Claim(world.links, tokenHash, now))
    case Sweep(now, batch) =>
      World(Prune(world.links, now, batch),
            Some(if world.swept.Some? then Max(world.swept.value, now) else now))
  }

  /** No deletion went by a later reading than this request's. */
  predicate InTime(world: World, event: Event) {
    event.Start? && world.swept.Some? ==> event.now >= world.swept.value
  }

  /** Every link of an address in the hour after `from`, that moment left out and the end of it taken in. */
  function InHour(links: seq<Link>, email: string, from: int): nat {
    if links == [] then 0 else
    var last := links[|links| - 1];
    InHour(links[..|links| - 1], email, from)
    + if IsRecent(last, email, from) && last.createdAt <= from + HOUR then 1 else 0
  }

  ghost predicate WithinLimit(links: seq<Link>) {
    forall email, from :: InHour(links, email, from) <= LINKS_PER_HOUR
  }

  ghost predicate DeletedAreOld(world: World) {
    forall link <- world.links | link.deleted :: world.swept.Some? && link.createdAt <= world.swept.value - HOUR
  }

  /** Used once at most, and then before it expired. */
  predicate UsedOnce(link: Link) {
    && link.expiresAt == link.createdAt + LINK_TTL
    && link.signIns == (if link.usedAt.Some? then 1 else 0)
    && (link.usedAt.Some? ==> link.usedAt.value < link.expiresAt)
  }

  ghost predicate Inv(world: World) {
    WithinLimit(world.links) && DeletedAreOld(world) && forall link <- world.links :: UsedOnce(link)
  }

  /** Those in the hour are among those counted, unless a row counted was deleted. */
  lemma {:induction false} HourIsCounted(links: seq<Link>, email: string, from: int, after: int)
    requires after <= from && forall link <- links | link.deleted :: link.createdAt <= after
    ensures InHour(links, email, from) <= Counted(links, email, after)
  {
    if links != [] {
      assert links[|links| - 1] in links;
      HourIsCounted(links[..|links| - 1], email, from, after);
    }
  }

  lemma HourRecords(links: seq<Link>, link: Link, email: string, from: int)
    ensures InHour(links + [link], email, from)
         == InHour(links, email, from) + if IsRecent(link, email, from) && link.createdAt <= from + HOUR then 1 else 0
  {
    assert (links + [link])[..|links|] == links;
  }

  /** Marking rows used or deleted moves none into or out of an hour. */
  lemma {:induction false} SameHours(links: seq<Link>, links': seq<Link>, email: string, from: int)
    requires |links| == |links'|
    requires forall i | 0 <= i < |links| ::
        links[i].email == links'[i].email && links[i].createdAt == links'[i].createdAt
    ensures InHour(links, email, from) == InHour(links', email, from)
  {
    if links != [] {
      SameHours(links[..|links| - 1], links'[..|links| - 1], email, from);
    }
  }

  lemma RecordKeeps(world: World, tokenHash: string, email: string, now: int)
    requires Inv(world) && (world.swept.Some? ==> now >= world.swept.value)
    ensures Inv(world.(links := Record(world.links, tokenHash, email, now)))
  {
    var links' := Record(world.links, tokenHash, email, now);
    if Counted(world.links, email, now - HOUR) < LINKS_PER_HOUR {
      var link := Link(tokenHash, email, now, now + LINK_TTL, None, false, 0);
      forall e, from ensures InHour(links', e, from) <= LINKS_PER_HOUR {
        HourRecords(world.links, link, e, from);
        if IsRecent(link, e, from) && now <= from + HOUR {
          HourIsCounted(world.links, email, from, now - HOUR);
        }
      }
    }
  }

  lemma NextKeeps(world: World, event: Event)
    requires Inv(world) && InTime(world, event)
    ensures Inv(Next(world, event))
  {
    match event
    case Start(tokenHash, email, now) => RecordKeeps(world, tokenHash, email, now);
    case _ =>
      var links' := Next(world, event).links;
      forall email, from ensures InHour(links', email, from) <= LINKS_PER_HOUR {
        SameHours(world.links, links', email, from);
      }
      forall i | 0 <= i < |links'|
        ensures UsedOnce(links'[i])
        ensures links'[i].deleted ==>
                  Next(world, event).swept.Some? && links'[i].createdAt <= Next(world, event).swept.value - HOUR
      {
        assert world.links[i] in world.links;
      }
  }

  function Run(world: World, events: seq<Event>): World {
    if events == [] then world else Next(Run(world, events[..|events| - 1]), events[|events| - 1])
  }

  lemma RunOn(world: World, events: seq<Event>, event: Event)
    ensures Run(world, events + [event]) == Next(Run(world, events), event)
  {
    assert (events + [event])[..|events|] == events;
  }

  /** Each request, when it reached the database, was in time. */
  ghost predicate AllInTime(events: seq<Event>) {
    forall n | 0 <= n < |events| :: InTime(Run(Empty(), events[..n]), events[n])
  }

  function Empty(): World {
    World([], None)
  }

  lemma {:induction false} RunKeeps(events: seq<Event>)
    requires AllInTime(events)
    ensures Inv(Run(Empty(), events))
  {
    if events != [] {
      var shorter := events[..|events| - 1];
      forall n | 0 <= n < |shorter| ensures InTime(Run(Empty(), shorter[..n]), shorter[n]) {
        assert shorter[..n] == events[..n] && shorter[n] == events[n];
      }
      RunKeeps(shorter);
      NextKeeps(Run(Empty(), shorter), events[|events| - 1]);
    }
  }

  /**
   * Whatever order the readings arrive in, at most five links are recorded for an address in any hour, unless a
   * deletion went by a later reading than a request's; and each link is used at most once, before it expires.
   */
  lemma AtMostFiveAnHour(events: seq<Event>, email: string, from: int)
    requires AllInTime(events)
    ensures |SentWithin(Run(Empty(), events).links, email, from, from + 60 * 60_000)| <= 5
    ensures forall link <- Run(Empty(), events).links ::
              link.signIns <= 1 && (link.usedAt.Some? ==> link.usedAt.value < link.createdAt + 15 * 60_000)
  {
    RunKeeps(events);
    InHourIsSent(Run(Empty(), events).links, email, from);
  }

  /** The links sent to the address after the one moment and no later than the other, deleted or not. */
  ghost function SentWithin(links: seq<Link>, email: string, after: int, to: int): set<nat> {
    set i: nat | i < |links| && links[i].email == email && after < links[i].createdAt <= to
  }

  lemma SentOn(links: seq<Link>, link: Link, email: string, after: int, to: int)
    ensures SentWithin(links + [link], email, after, to) == SentWithin(links, email, after, to)
            + if link.email == email && after < link.createdAt <= to then {|links|} else {}
  {
  }

  lemma {:induction false} InHourIsSent(links: seq<Link>, email: string, from: int)
    ensures InHour(links, email, from) == |SentWithin(links, email, from, from + HOUR)|
  {
    if links != [] {
      var shorter, last := links[..|links| - 1], links[|links| - 1];
      InHourIsSent(shorter, email, from);
      SentOn(shorter, last, email, from, from + HOUR);
      assert links == shorter + [last];
    }
  }

  /** A link is never forgotten, and once used stays used: no later run signs in with it again. */
  lemma {:induction false} UsedStaysUsed(world: World, events: seq<Event>, i: nat)
    requires i < |world.links| && world.links[i].usedAt.Some?
    ensures i < |Run(world, events).links|
    ensures Run(world, events).links[i].usedAt == world.links[i].usedAt
         && Run(world, events).links[i].signIns == world.links[i].signIns
  {
    if events != [] {
      UsedStaysUsed(world, events[..|events| - 1], i);
    }
  }

  // ---------- A request overtaken by a deletion ----------

  /** Different tokens have different hashes. */
  function Hash(n: nat): string {
    seq(n, i => 'x')
  }

  /** So many links sent to an address at the same moment. */
  function Sent(email: string, at: int, n: nat, deleted: bool): seq<Link> {
    if n == 0 then [] else
    Sent(email, at, n - 1, deleted) + [SentLink(email, at, n, deleted)]
  }

  lemma CountedOn(links: seq<Link>, link: Link, email: string, after: int)
    ensures Counted(links + [link], email, after)
         == Counted(links, email, after) + if !link.deleted && IsRecent(link, email, after) then 1 else 0
  {
    assert (links + [link])[..|links|] == links;
  }

  lemma {:induction false} SentCounts(email: string, at: int, n: nat, deleted: bool, after: int)
    requires after < at
    ensures Counted(Sent(email, at, n, deleted), email, after) == if deleted then 0 else n
  {
    if n > 0 {
      SentCounts(email, at, n - 1, deleted, after);
      CountedOn(Sent(email, at, n - 1, deleted), SentLink(email, at, n, deleted), email, after);
    }
  }

  /** The link of one such request. */
  function SentLink(email: string, at: int, n: nat, deleted: bool): Link {
    Link(Hash(n), email, at, at + LINK_TTL, None, deleted, 0)
  }

  lemma {:induction false} SentAre(email: string, at: int, n: nat, deleted: bool)
    ensures |Sent(email, at, n, deleted)| == n
    ensures forall i | 0 <= i < n :: Sent(email, at, n, deleted)[i] == SentLink(email, at, i + 1, deleted)
  {
    if n > 0 {
      SentAre(email, at, n - 1, deleted);
    }
  }

  lemma {:induction false} SentInHour(email: string, at: int, n: nat, deleted: bool)
    ensures InHour(Sent(email, at, n, deleted), email, at - 1) == n
  {
    if n > 0 {
      SentInHour(email, at, n - 1, deleted);
      HourRecords(Sent(email, at, n - 1, deleted), SentLink(email, at, n, deleted), email, at - 1);
    }
  }

  function Starts(email: string, at: int, n: nat): seq<Event> {
    if n == 0 then [] else Starts(email, at, n - 1) + [Start(Hash(n), email, at)]
  }

  lemma OneMore(email: string, at: int, n: nat)
    requires 0 < n <= LINKS_PER_HOUR
    ensures Next(World(Sent(email, at, n - 1, false), None), Start(Hash(n), email, at))
         == World(Sent(email, at, n, false), None)
  {
    SentCounts(email, at, n - 1, false, at - HOUR);
  }

  lemma {:induction false} StartsSend(email: string, at: int, n: nat)
    requires n <= LINKS_PER_HOUR
    ensures Run(Empty(), Starts(email, at, n)) == World(Sent(email, at, n, false), None)
  {
    if n > 0 {
      StartsSend(email, at, n - 1);
      OneMore(email, at, n);
      RunTo(Starts(email, at, n - 1), Start(Hash(n), email, at), World(Sent(email, at, n - 1, false), None),
            World(Sent(email, at, n, false), None));
    }
  }

  lemma RunTo(events: seq<Event>, event: Event, before: World, after: World)
    requires Run(Empty(), events) == before && Next(before, event) == after
    ensures Run(Empty(), events + [event]) == after
  {
    RunOn(Empty(), events, event);
  }

  lemma {:induction false} StartsStart(email: string, at: int, n: nat)
    ensures |Starts(email, at, n)| == n && forall event <- Starts(email, at, n) :: event.Start?
  {
    if n > 0 {
      StartsStart(email, at, n - 1);
    }
  }

  lemma {:induction false} NotSwept(events: seq<Event>)
    requires forall event <- events :: event.Start?
    ensures Run(Empty(), events).swept.None?
  {
    if events != [] {
      var shorter, last := events[..|events| - 1], events[|events| - 1];
      NotSwept(shorter);
      assert last in events;
      RunOn(Empty(), shorter, last);
    }
  }

  lemma StartsAreInTime(email: string, at: int, n: nat)
    ensures AllInTime(Starts(email, at, n))
  {
    var events := Starts(email, at, n);
    StartsStart(email, at, n);
    forall k | 0 <= k < |events| ensures InTime(Run(Empty(), events[..k]), events[k]) {
      NotSwept(events[..k]);
    }
  }

  lemma SweptAll(email: string, at: int, swept: int, n: nat, batch: set<nat>)
    requires at <= swept - HOUR && forall i: nat | i < n :: i in batch
    ensures Prune(Sent(email, at, n, false), swept, batch) == Sent(email, at, n, true)
  {
    SentAre(email, at, n, false);
    SentAre(email, at, n, true);
  }

  /** None of the links of that hour is counted any more, so one more is recorded in it. */
  lemma OneMoreInTheHour(links: seq<Link>, hash: string, email: string, at: int, late: int)
    requires at <= late < at + HOUR && Counted(links, email, late - HOUR) == 0
    ensures InHour(Record(links, hash, email, late), email, at - 1) == InHour(links, email, at - 1) + 1
  {
    HourRecords(links, Link(hash, email, late, late + LINK_TTL, None, false, 0), email, at - 1);
  }

  /** So many links sent at that moment, all deleted: none counts any more, though all were in their hour. */
  lemma NoneCounts(email: string, at: int, late: int, n: nat)
    requires at <= late < at + HOUR
    ensures Counted(Sent(email, at, n, true), email, late - HOUR) == 0
    ensures InHour(Sent(email, at, n, true), email, at - 1) == n
  {
    SentCounts(email, at, n, true, late - HOUR);
    SentInHour(email, at, n, true);
  }

  /** After such a run, with no later deletion in it, a deletion and then this request keep the limit. */
  ghost predicate KeepsLimit(events: seq<Event>, swept: int, batch: set<nat>, start: Event) {
    WithinLimit(Next(Next(Run(Empty(), events), Sweep(swept, batch)), start).links)
  }

  ghost predicate SweptBy(events: seq<Event>, swept: int) {
    AllInTime(events) &&
    var latest := Run(Empty(), events).swept;
    latest.Some? ==> latest.value <= swept
  }

  lemma LaterKeeps(events: seq<Event>, swept: int, batch: set<nat>, start: Event)
    requires SweptBy(events, swept) && start.Start? && start.now >= swept
    ensures KeepsLimit(events, swept, batch, start)
  {
    RunKeeps(events);
    var world := Run(Empty(), events);
    NextKeeps(world, Sweep(swept, batch));
    NextKeeps(Next(world, Sweep(swept, batch)), start);
  }

  lemma EarlierBreaks(email: string, at: int, swept: int, late: int, n: nat, batch: set<nat>)
    requires at <= swept - HOUR && at <= late < at + HOUR && n == LINKS_PER_HOUR && forall i: nat | i < n :: i in batch
    ensures SweptBy(Starts(email, at, n), swept)
    ensures !KeepsLimit(Starts(email, at, n), swept, batch, Start(Hash(n + 1), email, late))
  {
    StartsAreInTime(email, at, n);
    StartsSend(email, at, n);
    SweptAll(email, at, swept, n, batch);
    var links := Sent(email, at, n, true);
    NoneCounts(email, at, late, n);
    OneMoreInTheHour(links, Hash(n + 1), email, at, late);
    assert InHour(Record(links, Hash(n + 1), email, late), email, at - 1) == n + 1;
  }

  /**
   * Exactly when: a request that a deletion overtook keeps the limit, whatever was sent before, if and only if its
   * reading is no older than the deletion's.
   */
  lemma OvertakenExactly(email: string, swept: int, late: int)
    ensures (forall events, batch, hash | SweptBy(events, swept) ::
               KeepsLimit(events, swept, batch, Start(hash, email, late)))
            <==> late >= swept
  {
    if late >= swept {
      forall events, batch, hash | SweptBy(events, swept)
        ensures KeepsLimit(events, swept, batch, Start(hash, email, late))
      {
        LaterKeeps(events, swept, batch, Start(hash, email, late));
      }
    } else {
      var n: nat :| n == LINKS_PER_HOUR;
      EarlierBreaks(email, Min(swept - HOUR, late), swept, late, n, {0, 1, 2, 3, 4});
    }
  }
}
