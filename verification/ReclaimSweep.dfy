/** The recurring XAUTOCLAIM sweep of shared/redis/client.py, run while other
    clients of the group keep working, and the handling of a poison entry. */
module ReclaimSweep {
  import opened RedisStreams

  // ------------------------------------------------------------ specification

  /** What one sweep hands to its caller and what it reports as lost. */
  datatype Swept = Swept(db: Db, yielded: seq<Entry>, lost: seq<Id>)

  /** What the other clients do after each page of the sweep. */
  type Schedule = seq<seq<Command>>

  function Now(env: Schedule): seq<Command> {
    if env == [] then [] else env[0]
  }

  function Later(env: Schedule): Schedule {
    if env == [] then [] else env[1..]
  }

  function CountedLost(db: Db, n: nat): Db {
    db.(lost := db.lost + n)
  }

  /** The database after one page, the counting of its lost ids and whatever
      the other clients did meanwhile. */
  function AfterPage(db: Db, page: Page, env: Schedule): Db {
    ApplyAll(CountedLost(page.db, |page.deleted|), Now(env))
  }

  lemma AfterPageFacts(db: Db, consumer: string, minIdle: nat, cursor: Id, count: nat, env: Schedule)
    requires Valid(db)
    ensures
      var page := AutoClaim(db, consumer, minIdle, cursor, count);
      var after := AfterPage(db, page, env);
      && Valid(page.db) && Valid(after) && db.now <= after.now
      && page.db.pel.Keys <= db.pel.Keys
      && (env == [] ==> after == CountedLost(page.db, |page.deleted|))
  {
    var page := AutoClaim(db, consumer, minIdle, cursor, count);
    ScanFrame(db, consumer, minIdle, cursor, count, SCAN_FACTOR * count);
    ApplyAllValid(CountedLost(page.db, |page.deleted|), Now(env));
  }

  /** The ids at or past the cursor strictly decrease from page to page, as far
      as no other client adds new ones. */
  lemma CursorProgress(db: Db, consumer: string, minIdle: nat, cursor: Id, count: nat)
    requires count > 0
    ensures
      var page := AutoClaim(db, consumer, minIdle, cursor, count);
      page.next != 0 ==>
        && cursor < page.next
        && From(page.db.pel.Keys, page.next) < From(db.pel.Keys, cursor)
        && |From(page.db.pel.Keys, page.next)| < |From(db.pel.Keys, cursor)|
  {
    var page := AutoClaim(db, consumer, minIdle, cursor, count);
    ScanNext(db, consumer, minIdle, cursor, count, SCAN_FACTOR * count);
    ScanFrame(db, consumer, minIdle, cursor, count, SCAN_FACTOR * count);
    if page.next != 0 {
      var before, after := From(db.pel.Keys, cursor), From(page.db.pel.Keys, page.next);
      assert page.next in before;
      assert Least(before) in before && Least(before) !in after;
      assert after <= before - {Least(before)};
      SubsetCard(after, before - {Least(before)});
    }
  }

  lemma {:induction false} SubsetCard(a: set<Id>, b: set<Id>)
    requires a <= b
    ensures |a| <= |b|
  {
    if a != {} {
      var x :| x in a;
      SubsetCard(a - {x}, b - {x});
    }
  }

  function Sweep(db: Db, consumer: string, minIdle: nat, count: nat, cursor: Id, env: Schedule): Swept
    requires Valid(db) && count > 0
    decreases |env|, |From(db.pel.Keys, cursor)|
  {
    var page := AutoClaim(db, consumer, minIdle, cursor, count);
    var after := AfterPage(db, page, env);
    AfterPageFacts(db, consumer, minIdle, cursor, count, env);
    CursorProgress(db, consumer, minIdle, cursor, count);
    if page.next == 0 || page.next == cursor then
      Swept(after, page.claimed, page.deleted)
    else
      var rest := Sweep(after, consumer, minIdle, count, page.next, Later(env));
      Swept(rest.db, page.claimed + rest.yielded, page.deleted + rest.lost)
  }

  /** The database in which the sweep's cursor reaches `id`. */
  function Reached(db: Db, consumer: string, minIdle: nat, count: nat, cursor: Id, env: Schedule, id: Id): Db
    requires Valid(db) && count > 0
    decreases |env|, |From(db.pel.Keys, cursor)|
  {
    var page := AutoClaim(db, consumer, minIdle, cursor, count);
    AfterPageFacts(db, consumer, minIdle, cursor, count, env);
    CursorProgress(db, consumer, minIdle, cursor, count);
    if Covers(cursor, page.next, id) || page.next == 0 || page.next == cursor then
      db
    else
      Reached(AfterPage(db, page, env), consumer, minIdle, count, page.next, Later(env), id)
  }

  // ------------------------------------------------------------------ theorems

  lemma {:induction false} SweepYields(
      db: Db, consumer: string, minIdle: nat, count: nat, cursor: Id, env: Schedule, id: Id)
    requires Valid(db) && count > 0
    ensures
      var at := Reached(db, consumer, minIdle, count, cursor, env, id);
      Times(id, Ids(Sweep(db, consumer, minIdle, count, cursor, env).yielded))
      == One(cursor <= id && Claimable(at, id, minIdle))
    decreases |env|, |From(db.pel.Keys, cursor)|
  {
    var page := AutoClaim(db, consumer, minIdle, cursor, count);
    AfterPageFacts(db, consumer, minIdle, cursor, count, env);
    CursorProgress(db, consumer, minIdle, cursor, count);
    ScanClaims(db, consumer, minIdle, cursor, count, SCAN_FACTOR * count, id);
    if page.next != 0 && page.next != cursor {
      var after := AfterPage(db, page, env);
      SweepYields(after, consumer, minIdle, count, page.next, Later(env), id);
      var rest := Sweep(after, consumer, minIdle, count, page.next, Later(env));
      IdsConcat(page.claimed, rest.yielded);
      TimesConcat(id, Ids(page.claimed), Ids(rest.yielded));
    }
  }

  lemma {:induction false} SweepReports(
      db: Db, consumer: string, minIdle: nat, count: nat, cursor: Id, env: Schedule, id: Id)
    requires Valid(db) && count > 0
    ensures
      var at := Reached(db, consumer, minIdle, count, cursor, env, id);
      Times(id, Sweep(db, consumer, minIdle, count, cursor, env).lost) == One(cursor <= id && Bodyless(at, id))
    decreases |env|, |From(db.pel.Keys, cursor)|
  {
    var page := AutoClaim(db, consumer, minIdle, cursor, count);
    AfterPageFacts(db, consumer, minIdle, cursor, count, env);
    CursorProgress(db, consumer, minIdle, cursor, count);
    ScanDeletes(db, consumer, minIdle, cursor, count, SCAN_FACTOR * count, id);
    if page.next != 0 && page.next != cursor {
      var after := AfterPage(db, page, env);
      SweepReports(after, consumer, minIdle, count, page.next, Later(env), id);
      var rest := Sweep(after, consumer, minIdle, count, page.next, Later(env));
      TimesConcat(id, page.deleted, rest.lost);
    }
  }

  /** A sweep is complete and precise under any interleaving: an id is yielded
      exactly once if it is stale and has a body when the cursor reaches it,
      reported lost exactly once if it is pending without a body then, and is
      otherwise neither yielded nor reported. */
  lemma SweepExact(
      db: Db, consumer: string, minIdle: nat, count: nat, cursor: Id, env: Schedule, id: Id)
    requires Valid(db) && count > 0
    ensures
      var swept := Sweep(db, consumer, minIdle, count, cursor, env);
      var at := Reached(db, consumer, minIdle, count, cursor, env, id);
      && Times(id, Ids(swept.yielded)) == One(cursor <= id && Claimable(at, id, minIdle))
      && Times(id, swept.lost) == One(cursor <= id && Bodyless(at, id))
  {
    SweepYields(db, consumer, minIdle, count, cursor, env, id);
    SweepReports(db, consumer, minIdle, count, cursor, env, id);
  }

  lemma {:induction false} ReachedLater(
      db: Db, consumer: string, minIdle: nat, count: nat, cursor: Id, env: Schedule, id: Id)
    requires Valid(db) && count > 0
    ensures db.now <= Reached(db, consumer, minIdle, count, cursor, env, id).now
    decreases |env|, |From(db.pel.Keys, cursor)|
  {
    var page := AutoClaim(db, consumer, minIdle, cursor, count);
    AfterPageFacts(db, consumer, minIdle, cursor, count, env);
    CursorProgress(db, consumer, minIdle, cursor, count);
    if !Covers(cursor, page.next, id) && page.next != 0 && page.next != cursor {
      ReachedLater(AfterPage(db, page, env), consumer, minIdle, count, page.next, Later(env), id);
    }
  }

  /** Nobody acknowledged, claimed or re-delivered `id` before the cursor came. */
  predicate LeftAlone(db: Db, consumer: string, minIdle: nat, count: nat, env: Schedule, id: Id)
    requires Valid(db) && count > 0 && id in db.pel
  {
    var at := Reached(db, consumer, minIdle, count, 0, env, id);
    id in at.pel && at.pel[id] == db.pel[id]
  }

  /** Whatever was idle long enough when the sweep began, and left alone, comes
      back exactly once, however many fresh entries are pending before it. */
  lemma StaleEntryComesBack(db: Db, consumer: string, minIdle: nat, count: nat, env: Schedule, id: Id)
    requires Valid(db) && count > 0
    requires id in db.pel && db.pel[id].deliveredAt + minIdle <= db.now
    requires LeftAlone(db, consumer, minIdle, count, env, id)
    ensures
      var swept := Sweep(db, consumer, minIdle, count, 0, env);
      Times(id, Ids(swept.yielded)) + Times(id, swept.lost) == 1
  {
    SweepExact(db, consumer, minIdle, count, 0, env, id);
    ReachedLater(db, consumer, minIdle, count, 0, env, id);
  }

  /** An entry somebody was handed too recently is not taken away. */
  lemma FreshEntryIsLeft(db: Db, consumer: string, minIdle: nat, count: nat, env: Schedule, id: Id)
    requires Valid(db) && count > 0
    requires
      var at := Reached(db, consumer, minIdle, count, 0, env, id);
      id in at.pel ==> minIdle > 0 && at.now < at.pel[id].deliveredAt + minIdle
    ensures Times(id, Ids(Sweep(db, consumer, minIdle, count, 0, env).yielded)) == 0
  {
    SweepExact(db, consumer, minIdle, count, 0, env, id);
  }

  /** Commands of other consumers that count lost entries of their own. */
  function OtherCounts(commands: seq<Command>): nat {
    if commands == [] then 0 else One(commands[0].CountLost?) + OtherCounts(commands[1..])
  }

  function AllOtherCounts(env: Schedule): nat {
    if env == [] then 0 else OtherCounts(env[0]) + AllOtherCounts(env[1..])
  }

  lemma {:induction false} ApplyAllCounts(db: Db, commands: seq<Command>)
    requires Valid(db)
    ensures ApplyAll(db, commands).lost == db.lost + OtherCounts(commands)
    decreases |commands|
  {
    if commands != [] {
      var c := commands[0];
      ApplyValid(db, c);
      match c {
        case Read(consumer, count) => ReadNewFacts(db, consumer, count);
        case Claim(consumer, minIdle, start, count) =>
          ScanFrame(db, consumer, minIdle, start, count, SCAN_FACTOR * count);
        case _ =>
      }
      ApplyAllCounts(Apply(db, c), commands[1..]);
    }
  }

  /** How many pages the sweep asks for. */
  function Pages(db: Db, consumer: string, minIdle: nat, count: nat, cursor: Id, env: Schedule): (n: nat)
    requires Valid(db) && count > 0
    decreases |env|, |From(db.pel.Keys, cursor)|
  {
    var page := AutoClaim(db, consumer, minIdle, cursor, count);
    AfterPageFacts(db, consumer, minIdle, cursor, count, env);
    CursorProgress(db, consumer, minIdle, cursor, count);
    if page.next == 0 || page.next == cursor then 1
    else 1 + Pages(AfterPage(db, page, env), consumer, minIdle, count, page.next, Later(env))
  }

  /** What the others do during the first n pages. */
  function During(env: Schedule, n: nat): Schedule {
    if n < |env| then env[..n] else env
  }

  lemma DuringStep(env: Schedule, n: nat)
    ensures AllOtherCounts(During(env, n + 1)) == OtherCounts(Now(env)) + AllOtherCounts(During(Later(env), n))
    ensures AllOtherCounts(During(env, 0)) == 0
  {
    if env != [] {
      assert During(env, n + 1)[0] == env[0];
      assert During(env, n + 1)[1..] == During(env[1..], n);
    }
  }

  /** The lost-entry counter grows by exactly the ids the sweep reported and
      those that others counted during its pages: nothing is counted twice or
      left out. */
  lemma {:induction false} SweepCounts(
      db: Db, consumer: string, minIdle: nat, count: nat, cursor: Id, env: Schedule)
    requires Valid(db) && count > 0
    ensures
      var swept := Sweep(db, consumer, minIdle, count, cursor, env);
      var pages := Pages(db, consumer, minIdle, count, cursor, env);
      swept.db.lost == db.lost + |swept.lost| + AllOtherCounts(During(env, pages))
    decreases |env|, |From(db.pel.Keys, cursor)|
  {
    var page := AutoClaim(db, consumer, minIdle, cursor, count);
    AfterPageFacts(db, consumer, minIdle, cursor, count, env);
    CursorProgress(db, consumer, minIdle, cursor, count);
    ScanFrame(db, consumer, minIdle, cursor, count, SCAN_FACTOR * count);
    ApplyAllCounts(CountedLost(page.db, |page.deleted|), Now(env));
    DuringStep(env, Pages(db, consumer, minIdle, count, cursor, env) - 1);
    DuringStep(Later(env), 0);
    if page.next != 0 && page.next != cursor {
      SweepCounts(AfterPage(db, page, env), consumer, minIdle, count, page.next, Later(env));
    }
  }

  function Prepend(yielded: seq<Entry>, lost: seq<Id>, rest: Swept): Swept {
    Swept(rest.db, yielded + rest.yielded, lost + rest.lost)
  }

  lemma PrependTwice(yielded: seq<Entry>, lost: seq<Id>, claimed: seq<Entry>, deleted: seq<Id>, rest: Swept)
    ensures Prepend(yielded, lost, Prepend(claimed, deleted, rest)) == Prepend(yielded + claimed, lost + deleted, rest)
  {
    assert yielded + (claimed + rest.yielded) == (yielded + claimed) + rest.yielded;
    assert lost + (deleted + rest.lost) == (lost + deleted) + rest.lost;
  }

  /** One page of a sweep, and what is left of it. */
  lemma SweepStep(db: Db, consumer: string, minIdle: nat, count: nat, cursor: Id, env: Schedule)
    requires Valid(db) && count > 0
    ensures
      var page := AutoClaim(db, consumer, minIdle, cursor, count);
      var after := AfterPage(db, page, env);
      && Valid(after)
      && Sweep(db, consumer, minIdle, count, cursor, env) ==
         if page.next == 0 || page.next == cursor then Swept(after, page.claimed, page.deleted)
         else Prepend(page.claimed, page.deleted, Sweep(after, consumer, minIdle, count, page.next, Later(env)))
  {
    AfterPageFacts(db, consumer, minIdle, cursor, count, env);
  }

  // ---------------------------------------------------------------- the client

  /** The server: one command at a time, each atomic. */
  class RedisServer {
    var db: Db

    constructor (db: Db)
      requires Valid(db)
      ensures this.db == db
    {
      this.db := db;
    }

    method XAutoClaim(consumer: string, minIdle: nat, start: Id, count: nat)
      returns (next: Id, claimed: seq<Entry>, deleted: seq<Id>)
      requires Valid(db) && count > 0
      modifies this
      ensures AutoClaim(old(db), consumer, minIdle, start, count) == Page(db, next, claimed, deleted)
      ensures Valid(db)
    {
      ScanFrame(db, consumer, minIdle, start, count, SCAN_FACTOR * count);
      var page := AutoClaim(db, consumer, minIdle, start, count);
      db := page.db;
      return page.next, page.claimed, page.deleted;
    }

    method HIncrLost()
      requires Valid(db)
      modifies this
      ensures db == LostCounted(old(db)) && Valid(db)
    {
      db := LostCounted(db);
    }

    method XAck(id: Id)
      requires Valid(db)
      modifies this
      ensures db == Acked(old(db), id) && Valid(db)
    {
      db := Acked(db, id);
    }

    method XAddDeadLetter(letter: DeadLetter, evict: nat)
      requires Valid(db)
      modifies this
      ensures db == Quarantined(old(db), letter, evict) && Valid(db)
    {
      db := Quarantined(db, letter, evict);
    }

    /** The other clients take their turn. */
    method Others(commands: seq<Command>)
      requires Valid(db)
      modifies this
      ensures db == ApplyAll(old(db), commands) && Valid(db)
    {
      ApplyAllValid(db, commands);
      db := ApplyAll(db, commands);
    }
  }

  /** How one call to the server ends, as seen by the client. */
  datatype Fate =
    | Answered     // the call took effect and returned
    | Refused      // it raised, and had no effect
    | Unanswered   // it raised, although the server had carried it out

  class RedisStreamClient {
    const redis: RedisServer

    constructor (redis: RedisServer)
      ensures this.redis == redis
    {
      this.redis := redis;
    }

    method RecordLostEntry(id: Id)
      requires Valid(redis.db)
      modifies redis
      ensures redis.db == LostCounted(old(redis.db)) && Valid(redis.db)
    {
      redis.HIncrLost();
    }

    /** One page of the sweep: claim, and count what was deleted. Then `pages`
        says what the other clients do. */
    method ReclaimPage(consumer: string, count: nat, pendingTimeoutMs: nat, cursor: Id, pages: Schedule)
      returns (next: Id, claimed: seq<Entry>, deleted: seq<Id>)
      requires Valid(redis.db) && count > 0
      modifies redis
      ensures Valid(redis.db)
      ensures
        var page := AutoClaim(old(redis.db), consumer, pendingTimeoutMs, cursor, count);
        && page.next == next && page.claimed == claimed && page.deleted == deleted
        && redis.db == AfterPage(old(redis.db), page, pages)
    {
      next, claimed, deleted := redis.XAutoClaim(consumer, pendingTimeoutMs, cursor, count);
      ghost var claimedDb := redis.db;
      for i := 0 to |deleted|
        invariant Valid(redis.db) && redis.db == CountedLost(claimedDb, i)
      {
        RecordLostEntry(deleted[i]);
      }
      redis.Others(Now(pages));
    }

    /** One sweep over the group's PEL. The generator's yields are collected in
        `yielded`, and `env` has one item for each page. */
    method ReclaimPending(consumer: string, count: nat, pendingTimeoutMs: nat, env: Schedule)
      returns (yielded: seq<Entry>, lost: seq<Id>)
      requires Valid(redis.db) && count > 0
      modifies redis
      ensures Valid(redis.db)
      ensures Swept(redis.db, yielded, lost) == Sweep(old(redis.db), consumer, pendingTimeoutMs, count, 0, env)
    {
      ghost var whole := Sweep(redis.db, consumer, pendingTimeoutMs, count, 0, env);
      var cursor: Id := 0;
      var pages := env;
      yielded, lost := [], [];
      var more := true;
      while more
        invariant Valid(redis.db)
        invariant !more ==> whole == Swept(redis.db, yielded, lost)
        invariant more ==>
            whole == Prepend(yielded, lost, Sweep(redis.db, consumer, pendingTimeoutMs, count, cursor, pages))
        decreases more, |pages|, |From(redis.db.pel.Keys, cursor)|
      {
        ghost var before, yielded0, lost0 := redis.db, yielded, lost;
        AfterPageFacts(before, consumer, pendingTimeoutMs, cursor, count, pages);
        CursorProgress(before, consumer, pendingTimeoutMs, cursor, count);
        var next, claimed, deleted := ReclaimPage(consumer, count, pendingTimeoutMs, cursor, pages);
        SweepStep(before, consumer, pendingTimeoutMs, count, cursor, pages);
        yielded, lost := yielded + claimed, lost + deleted;
        if next == 0 || next == cursor {
          more := false;
        } else {
          PrependTwice(yielded0, lost0, claimed, deleted,
                       Sweep(redis.db, consumer, pendingTimeoutMs, count, next, Later(pages)));
          cursor := next;
          pages := Later(pages);
        }
      }
    }

    /** Copy a poison entry to the capped dead-letter stream, which may evict its
        oldest letters for it; true once it landed. */
    method QuarantineEntry(id: Id, fields: Fields, failure: string, evict: nat, fate: Fate) returns (landed: bool)
      requires Valid(redis.db)
      modifies redis
      ensures Valid(redis.db)
      ensures landed == (fate == Answered)
      ensures redis.db == if fate == Refused then old(redis.db)
                          else Quarantined(old(redis.db), DeadLetter(id, failure, fields), evict)
      ensures landed ==> redis.db.dlq != [] && redis.db.dlq[|redis.db.dlq| - 1] == DeadLetter(id, failure, fields)
    {
      LetterLands(redis.db, DeadLetter(id, failure, fields), evict);
      if fate != Refused {
        redis.XAddDeadLetter(DeadLetter(id, failure, fields), evict);
      }
      landed := fate == Answered;
    }

    /** ACK a poison entry; a failing XACK is swallowed. */
    method TerminalAck(id: Id, fate: Fate)
      requires Valid(redis.db)
      modifies redis
      ensures Valid(redis.db)
      ensures redis.db == if fate == Refused then old(redis.db) else Acked(old(redis.db), id)
    {
      if fate != Refused {
        redis.XAck(id);
      }
    }

    /** Quarantine, then ACK: with other clients and failing calls in between,
        the entry is given up only once its body was written to the dead letters. */
    method RejectEntry(id: Id, fields: Fields, failure: string, evict: nat, writeFate: Fate, between: seq<Command>,
                       ackFate: Fate)
      requires Valid(redis.db)
      modifies redis
      ensures Valid(redis.db)
      ensures
        var letter := DeadLetter(id, failure, fields);
        var written := if writeFate == Refused then old(redis.db) else Quarantined(old(redis.db), letter, evict);
        redis.db ==
          if writeFate == Answered && ackFate != Refused then Acked(ApplyAll(written, between), id)
          else ApplyAll(written, between)
    {
      var landed := QuarantineEntry(id, fields, failure, evict, writeFate);
      redis.Others(between);
      if landed {
        TerminalAck(id, ackFate);
      }
    }
  }
}
