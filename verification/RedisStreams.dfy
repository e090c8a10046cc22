/** One Redis stream with one consumer group, reduced to what the stream client
    of shared/redis/client.py can observe: the entries, the group's pending
    entries list (PEL), the dead-letter stream and the lost-entry counter.

    Entry ids are numbers in stream order; 0 stands for the id "0-0", which no
    entry ever has.
  */
module RedisStreams {

  type Id = nat
  type Fields = map<string, string>

  datatype Pending = Pending(owner: string, deliveredAt: nat, deliveries: nat)

  datatype Entry = Entry(id: Id, fields: Fields)

  /** One record of the dead-letter stream: which entry it copies, and the body. */
  datatype DeadLetter = DeadLetter(entryId: Id, failure: string, body: Fields)

  datatype Db = Db(
    now: nat,
    stream: map<Id, Fields>,
    lastId: Id,
    lastDelivered: Id,
    pel: map<Id, Pending>,
    dlq: seq<DeadLetter>,
    lost: nat
  )

  predicate Valid(db: Db) {
    && db.lastDelivered <= db.lastId
    && (forall id :: id in db.stream ==> 0 < id <= db.lastId)
    && (forall id :: id in db.pel ==> 0 < id <= db.lastDelivered)
  }

  // ---------------------------------------------------------------- ordering

  ghost predicate IsLeast(s: set<Id>, m: Id) {
    m in s && forall k :: k in s ==> m <= k
  }

  lemma {:induction false} LeastExists(s: set<Id>)
    requires s != {}
    ensures exists m :: IsLeast(s, m)
  {
    var x :| x in s;
    var others := s - {x};
    assert s == others + {x};
    if others == {} {
      assert IsLeast(s, x);
    } else {
      LeastExists(others);
      var m :| IsLeast(others, m);
      assert IsLeast(s, if m <= x then m else x);
    }
  }

  function Least(s: set<Id>): (m: Id)
    requires s != {}
    ensures m in s && forall k :: k in s ==> m <= k
  {
    assert exists m :: m in s && forall k :: k in s ==> m <= k by {
      LeastExists(s);
      var m :| IsLeast(s, m);
      assert m in s && forall k :: k in s ==> m <= k;
    }
    var m :| m in s && forall k :: k in s ==> m <= k;
    m
  }

  function From(keys: set<Id>, start: Id): set<Id> {
    set k | k in keys && start <= k
  }

  // -------------------------------------------------------------- XAUTOCLAIM

  /** The reply of XAUTOCLAIM together with the database it leaves behind. */
  datatype Page = Page(db: Db, next: Id, claimed: seq<Entry>, deleted: seq<Id>)

  predicate Idle(db: Db, id: Id, minIdle: nat)
    requires id in db.pel
  {
    minIdle == 0 || db.now - db.pel[id].deliveredAt >= minIdle
  }

  function Taken(db: Db, id: Id, consumer: string): Db
    requires id in db.pel
  {
    db.(pel := db.pel[id := Pending(consumer, db.now, db.pel[id].deliveries + 1)])
  }

  function Dropped(db: Db, id: Id): Db {
    db.(pel := db.pel - {id})
  }

  /** What becomes of one PEL id that is looked at: without a body it is
      dropped, too fresh it is left, and otherwise it is taken. */
  function Seen(db: Db, id: Id, consumer: string, minIdle: nat): Db
    requires id in db.pel
  {
    if id !in db.stream then Dropped(db, id)
    else if !Idle(db, id, minIdle) then db
    else Taken(db, id, consumer)
  }

  /** How much of the count is left after an id was looked at. */
  function Left(db: Db, id: Id, minIdle: nat, count: nat): nat
    requires id in db.pel && count > 0
  {
    if id in db.stream && !Idle(db, id, minIdle) then count else count - 1
  }

  /** XAUTOCLAIM walks the PEL from `cursor`. It stops after `attempts` ids, or
      once `count` ids went into the reply, and answers with the first id it did
      not look at, or 0 at the end of the list. */
  function Scan(db: Db, consumer: string, minIdle: nat, cursor: Id, count: nat, attempts: nat): Page
    decreases attempts
  {
    var rest := From(db.pel.Keys, cursor);
    if rest == {} then
      Page(db, 0, [], [])
    else
      var id := Least(rest);
      if count == 0 || attempts == 0 then
        Page(db, id, [], [])
      else
        var left := Left(db, id, minIdle, count);
        var page := Scan(Seen(db, id, consumer, minIdle), consumer, minIdle, id + 1, left, attempts - 1);
        if id !in db.stream then page.(deleted := [id] + page.deleted)
        else if !Idle(db, id, minIdle) then page
        else page.(claimed := [Entry(id, db.stream[id])] + page.claimed)
  }

  /** Redis examines at most ten PEL ids for every id the caller asked for. */
  const SCAN_FACTOR: nat := 10

  function AutoClaim(db: Db, consumer: string, minIdle: nat, start: Id, count: nat): Page {
    Scan(db, consumer, minIdle, start, count, SCAN_FACTOR * count)
  }

  /** The ids a page has dealt with: from its cursor up to the next one. */
  predicate Covers(cursor: Id, next: Id, id: Id) {
    cursor <= id && (next == 0 || id < next)
  }

  function Ids(entries: seq<Entry>): (ids: seq<Id>)
    ensures |ids| == |entries|
    ensures forall i :: 0 <= i < |ids| ==> ids[i] == entries[i].id
  {
    seq(|entries|, i requires 0 <= i < |entries| => entries[i].id)
  }

  lemma IdsConcat(a: seq<Entry>, b: seq<Entry>)
    ensures Ids(a + b) == Ids(a) + Ids(b)
  {
  }

  /** What the claim decides about one id, from the database it starts in. */
  predicate Claimable(db: Db, id: Id, minIdle: nat) {
    id in db.pel && id in db.stream && Idle(db, id, minIdle)
  }

  predicate Bodyless(db: Db, id: Id) {
    id in db.pel && id !in db.stream
  }

  function One(b: bool): nat {
    if b then 1 else 0
  }

  /** How often `id` occurs in a list. */
  function Times(id: Id, ids: seq<Id>): nat {
    if ids == [] then 0 else One(ids[0] == id) + Times(id, ids[1..])
  }

  lemma TimesCons(id: Id, head: Id, tail: seq<Id>)
    ensures Times(id, [head] + tail) == One(head == id) + Times(id, tail)
  {
    assert ([head] + tail)[1..] == tail;
  }

  lemma {:induction false} TimesConcat(id: Id, a: seq<Id>, b: seq<Id>)
    ensures Times(id, a + b) == Times(id, a) + Times(id, b)
  {
    if a == [] {
      assert a + b == b;
    } else {
      assert (a + b)[1..] == a[1..] + b;
      TimesConcat(id, a[1..], b);
    }
  }

  /** Looking at the least id `k` splits what a page covers into `k` and the
      ids after it. */
  lemma CoversStep(db: Db, cursor: Id, k: Id, next: Id, id: Id)
    requires From(db.pel.Keys, cursor) != {} && k == Least(From(db.pel.Keys, cursor))
    requires 0 < k && (next == 0 || k < next)
    ensures id in db.pel ==> (Covers(cursor, next, id) <==> id == k || Covers(k + 1, next, id))
    ensures k in db.pel && !Covers(k + 1, next, k)
  {
    assert k in From(db.pel.Keys, cursor);
    if id in db.pel && cursor <= id {
      assert id in From(db.pel.Keys, cursor);
    }
  }

  lemma NothingCovered(db: Db, cursor: Id, id: Id)
    requires 0 !in db.pel
    ensures
      var rest := From(db.pel.Keys, cursor);
      Covers(cursor, if rest == {} then 0 else Least(rest), id) ==> id !in db.pel
  {
    var rest := From(db.pel.Keys, cursor);
    if id in db.pel && cursor <= id {
      assert id in rest;
      assert Least(rest) in rest;
    }
  }

  /** Every id XAUTOCLAIM covers is claimed exactly if it is claimable. */
  lemma {:induction false} ScanClaims(
      db: Db, consumer: string, minIdle: nat, cursor: Id, count: nat, attempts: nat, id: Id)
    requires 0 !in db.pel
    ensures
      var page := Scan(db, consumer, minIdle, cursor, count, attempts);
      var covered := Covers(cursor, page.next, id);
      Times(id, Ids(page.claimed)) == One(covered && Claimable(db, id, minIdle))
    decreases attempts
  {
    var rest := From(db.pel.Keys, cursor);
    var page := Scan(db, consumer, minIdle, cursor, count, attempts);
    if rest != {} && count > 0 && attempts > 0 {
      var k := Least(rest);
      var db', left := Seen(db, k, consumer, minIdle), Left(db, k, minIdle, count);
      ScanNext(db, consumer, minIdle, cursor, count, attempts);
      CoversStep(db, cursor, k, page.next, id);
      ScanClaims(db', consumer, minIdle, k + 1, left, attempts - 1, id);
      var tail := Scan(db', consumer, minIdle, k + 1, left, attempts - 1);
      if k in db.stream && Idle(db, k, minIdle) {
        IdsConcat([Entry(k, db.stream[k])], tail.claimed);
        TimesCons(id, k, Ids(tail.claimed));
      }
    } else {
      NothingCovered(db, cursor, id);
    }
  }

  /** Every id XAUTOCLAIM covers is reported deleted exactly if its body is gone. */
  lemma {:induction false} ScanDeletes(
      db: Db, consumer: string, minIdle: nat, cursor: Id, count: nat, attempts: nat, id: Id)
    requires 0 !in db.pel
    ensures
      var page := Scan(db, consumer, minIdle, cursor, count, attempts);
      var covered := Covers(cursor, page.next, id);
      Times(id, page.deleted) == One(covered && Bodyless(db, id))
    decreases attempts
  {
    var rest := From(db.pel.Keys, cursor);
    var page := Scan(db, consumer, minIdle, cursor, count, attempts);
    if rest != {} && count > 0 && attempts > 0 {
      var k := Least(rest);
      var db', left := Seen(db, k, consumer, minIdle), Left(db, k, minIdle, count);
      ScanNext(db, consumer, minIdle, cursor, count, attempts);
      CoversStep(db, cursor, k, page.next, id);
      ScanDeletes(db', consumer, minIdle, k + 1, left, attempts - 1, id);
      var tail := Scan(db', consumer, minIdle, k + 1, left, attempts - 1);
      if k !in db.stream {
        TimesCons(id, k, tail.deleted);
      }
    } else {
      NothingCovered(db, cursor, id);
    }
  }

  /** XAUTOCLAIM drops the body-less entries it covers. Those that have a body
      and were last handed out at least `minIdle` ago go over to the claiming
      consumer: handed out now, and once more often than before. Every other
      record stays as it is. */
  lemma {:induction false} ScanPel(
      db: Db, consumer: string, minIdle: nat, cursor: Id, count: nat, attempts: nat, id: Id)
    requires 0 !in db.pel
    ensures
      var page := Scan(db, consumer, minIdle, cursor, count, attempts);
      var covered := Covers(cursor, page.next, id);
      && (id in page.db.pel <==> id in db.pel && !(covered && Bodyless(db, id)))
      && (id in page.db.pel ==>
            page.db.pel[id] ==
              if covered && id in db.stream && (minIdle == 0 || db.pel[id].deliveredAt + minIdle <= db.now)
              then Pending(consumer, db.now, db.pel[id].deliveries + 1)
              else db.pel[id])
    decreases attempts
  {
    var rest := From(db.pel.Keys, cursor);
    var page := Scan(db, consumer, minIdle, cursor, count, attempts);
    if rest != {} && count > 0 && attempts > 0 {
      var k := Least(rest);
      ScanNext(db, consumer, minIdle, cursor, count, attempts);
      CoversStep(db, cursor, k, page.next, id);
      ScanPel(Seen(db, k, consumer, minIdle), consumer, minIdle, k + 1, Left(db, k, minIdle, count), attempts - 1, id);
    } else {
      NothingCovered(db, cursor, id);
    }
  }

  /** The next cursor is the end marker or an id that is still pending, and a page
      that continues has moved past at least one id. */
  lemma {:induction false} ScanNext(
      db: Db, consumer: string, minIdle: nat, cursor: Id, count: nat, attempts: nat)
    ensures
      var page := Scan(db, consumer, minIdle, cursor, count, attempts);
      && (page.next == 0 || (page.next in db.pel && page.next in page.db.pel && cursor <= page.next))
      && (page.next != 0 && count > 0 && attempts > 0 ==>
            cursor < page.next && Least(From(db.pel.Keys, cursor)) < page.next)
    decreases attempts
  {
    var rest := From(db.pel.Keys, cursor);
    if rest != {} {
      var k := Least(rest);
      assert k in rest;
      if count > 0 && attempts > 0 {
        ScanNext(Seen(db, k, consumer, minIdle), consumer, minIdle, k + 1, Left(db, k, minIdle, count), attempts - 1);
      }
    }
  }

  /** The pending ids a page has looked at. */
  function Looked(db: Db, cursor: Id, next: Id): set<Id> {
    set id | id in db.pel.Keys && Covers(cursor, next, id)
  }

  lemma LookedStep(db: Db, cursor: Id, consumer: string, minIdle: nat, next: Id)
    requires 0 !in db.pel && From(db.pel.Keys, cursor) != {}
    requires var k := Least(From(db.pel.Keys, cursor)); next == 0 || k < next
    ensures
      var k := Least(From(db.pel.Keys, cursor));
      && k in db.pel
      && Looked(db, cursor, next) == Looked(Seen(db, k, consumer, minIdle), k + 1, next) + {k}
      && k !in Looked(Seen(db, k, consumer, minIdle), k + 1, next)
  {
    var k := Least(From(db.pel.Keys, cursor));
    assert k in From(db.pel.Keys, cursor);
    var db' := Seen(db, k, consumer, minIdle);
    forall id ensures id in Looked(db, cursor, next) <==> id in Looked(db', k + 1, next) || id == k {
      CoversStep(db, cursor, k, next, id);
      assert id != k ==> (id in db.pel <==> id in db'.pel);
    }
  }

  lemma NoneLooked(db: Db, cursor: Id)
    requires 0 !in db.pel
    ensures
      var rest := From(db.pel.Keys, cursor);
      Looked(db, cursor, if rest == {} then 0 else Least(rest)) == {}
  {
    var rest := From(db.pel.Keys, cursor);
    var next := if rest == {} then 0 else Least(rest);
    assert rest != {} ==> next in rest;
    forall id | id in db.pel.Keys ensures !Covers(cursor, next, id) {
      assert cursor <= id ==> id in rest;
    }
  }

  /** One id more is looked at; it counts if it goes into the reply. */
  lemma ScanReplies(db: Db, consumer: string, minIdle: nat, cursor: Id, count: nat, attempts: nat)
    requires From(db.pel.Keys, cursor) != {} && count > 0 && attempts > 0
    ensures
      var k := Least(From(db.pel.Keys, cursor));
      var left := Left(db, k, minIdle, count);
      var page := Scan(db, consumer, minIdle, cursor, count, attempts);
      var tail := Scan(Seen(db, k, consumer, minIdle), consumer, minIdle, k + 1, left, attempts - 1);
      && page.next == tail.next
      && |page.claimed| + |page.deleted| == |tail.claimed| + |tail.deleted| + (count - left)
  {
  }

  predicate StopsRightly(page: Page, looked: nat, count: nat, attempts: nat) {
    && looked <= attempts
    && |page.claimed| + |page.deleted| <= count
    && (page.next != 0 ==> looked == attempts || |page.claimed| + |page.deleted| == count)
  }

  lemma LookedGrows(db: Db, consumer: string, minIdle: nat, cursor: Id, count: nat, attempts: nat)
    requires 0 !in db.pel && From(db.pel.Keys, cursor) != {} && count > 0 && attempts > 0
    ensures
      var k, next := Least(From(db.pel.Keys, cursor)), Scan(db, consumer, minIdle, cursor, count, attempts).next;
      |Looked(db, cursor, next)| == |Looked(Seen(db, k, consumer, minIdle), k + 1, next)| + 1
  {
    ScanNext(db, consumer, minIdle, cursor, count, attempts);
    LookedStep(db, cursor, consumer, minIdle, Scan(db, consumer, minIdle, cursor, count, attempts).next);
  }

  lemma {:induction false} ScanLooks(
      db: Db, consumer: string, minIdle: nat, cursor: Id, count: nat, attempts: nat)
    requires 0 !in db.pel
    ensures
      var page := Scan(db, consumer, minIdle, cursor, count, attempts);
      StopsRightly(page, |Looked(db, cursor, page.next)|, count, attempts)
    decreases attempts
  {
    var rest := From(db.pel.Keys, cursor);
    if rest == {} || count == 0 || attempts == 0 {
      NoneLooked(db, cursor);
    } else {
      var k := Least(rest);
      ScanLooks(Seen(db, k, consumer, minIdle), consumer, minIdle, k + 1, Left(db, k, minIdle, count), attempts - 1);
      ScanReplies(db, consumer, minIdle, cursor, count, attempts);
      LookedGrows(db, consumer, minIdle, cursor, count, attempts);
    }
  }

  lemma ScanStopsAfter(db: Db, consumer: string, minIdle: nat, cursor: Id, count: nat, attempts: nat)
    requires 0 !in db.pel
    ensures
      var page := Scan(db, consumer, minIdle, cursor, count, attempts);
      var replied, looked := |page.claimed| + |page.deleted|, Looked(db, cursor, page.next);
      var left := From(db.pel.Keys, cursor) - looked;
      && |looked| <= attempts && replied <= count
      && (left == {} <==> page.next == 0)
      && (left != {} ==> page.next == Least(left) && (|looked| == attempts || replied == count))
  {
    var page := Scan(db, consumer, minIdle, cursor, count, attempts);
    ScanLooks(db, consumer, minIdle, cursor, count, attempts);
    ScanNext(db, consumer, minIdle, cursor, count, attempts);
    var left := From(db.pel.Keys, cursor) - Looked(db, cursor, page.next);
    if page.next == 0 {
      assert left == {};
    } else {
      assert page.next in left;
      assert forall id :: id in left ==> page.next <= id;
    }
  }

  /** Where XAUTOCLAIM stops: it looks at no more than ten ids for each one it was
      asked for and puts no more than `count` of them into the reply; it stops
      before the end of the list only when one of the two is used up, and then
      answers with the least pending id it has not looked at; 0 means that it
      has looked at all of them. */
  lemma ScanStops(db: Db, consumer: string, minIdle: nat, cursor: Id, count: nat)
    requires 0 !in db.pel
    ensures
      var page := AutoClaim(db, consumer, minIdle, cursor, count);
      var replied, looked := |page.claimed| + |page.deleted|, Looked(db, cursor, page.next);
      var left := From(db.pel.Keys, cursor) - looked;
      && |looked| <= 10 * count && replied <= count
      && (left == {} <==> page.next == 0)
      && (left != {} ==> page.next == Least(left) && (|looked| == 10 * count || replied == count))
  {
    ScanStopsAfter(db, consumer, minIdle, cursor, count, SCAN_FACTOR * count);
  }

  /** XAUTOCLAIM touches nothing but the PEL, whose ids can only go. */
  lemma {:induction false} ScanFrame(
      db: Db, consumer: string, minIdle: nat, cursor: Id, count: nat, attempts: nat)
    ensures
      var page := Scan(db, consumer, minIdle, cursor, count, attempts);
      && page.db == db.(pel := page.db.pel)
      && page.db.pel.Keys <= db.pel.Keys
      && |page.claimed| + |page.deleted| <= count
      && (forall e :: e in page.claimed ==> e.id in db.stream && e.fields == db.stream[e.id])
    decreases attempts
  {
    var rest := From(db.pel.Keys, cursor);
    if rest != {} && count > 0 && attempts > 0 {
      var k := Least(rest);
      ScanFrame(Seen(db, k, consumer, minIdle), consumer, minIdle, k + 1, Left(db, k, minIdle, count), attempts - 1);
    }
  }

  /** What a page claims belongs to its consumer from that moment: nobody can
      claim it again before `minIdle` has passed. */
  lemma ClaimedIsFresh(
      db: Db, consumer: string, minIdle: nat, cursor: Id, count: nat, id: Id, other: nat)
    requires Valid(db) && id in Ids(AutoClaim(db, consumer, minIdle, cursor, count).claimed)
    ensures
      var after := AutoClaim(db, consumer, minIdle, cursor, count).db;
      && id in db.pel && id in after.pel
      && after.pel[id] == Pending(consumer, db.now, db.pel[id].deliveries + 1)
      && (other > 0 ==> !Claimable(after, id, other))
  {
    ScanClaims(db, consumer, minIdle, cursor, count, SCAN_FACTOR * count, id);
    ScanPel(db, consumer, minIdle, cursor, count, SCAN_FACTOR * count, id);
    ScanFrame(db, consumer, minIdle, cursor, count, SCAN_FACTOR * count);
    TimesMember(id, Ids(AutoClaim(db, consumer, minIdle, cursor, count).claimed));
  }

  lemma {:induction false} TimesMember(id: Id, ids: seq<Id>)
    ensures id in ids <==> Times(id, ids) > 0
  {
    if ids != [] {
      assert id in ids <==> id == ids[0] || id in ids[1..];
      TimesMember(id, ids[1..]);
    }
  }

  /** Two consumers that sweep at the same instant never get the same entry,
      whatever cursors and page sizes they use. */
  lemma NobodyClaimsTwice(
      db: Db, first: string, second: string, minIdle: nat, cursor: Id, cursor': Id, count: nat, count': nat, id: Id)
    requires Valid(db) && minIdle > 0
    requires id in Ids(AutoClaim(db, first, minIdle, cursor, count).claimed)
    ensures
      var after := AutoClaim(db, first, minIdle, cursor, count).db;
      id !in Ids(AutoClaim(after, second, minIdle, cursor', count').claimed)
  {
    var after := AutoClaim(db, first, minIdle, cursor, count).db;
    ClaimedIsFresh(db, first, minIdle, cursor, count, id, minIdle);
    ScanFrame(db, first, minIdle, cursor, count, SCAN_FACTOR * count);
    ScanClaims(after, second, minIdle, cursor', count', SCAN_FACTOR * count', id);
    TimesMember(id, Ids(AutoClaim(after, second, minIdle, cursor', count').claimed));
  }

  // -------------------------------------------------------- the other commands

  /** The entries nobody in the group was handed yet. */
  function Unread(db: Db): set<Id> {
    From(db.stream.Keys, db.lastDelivered + 1)
  }

  /** XREADGROUP with id ">": the next `count` entries nobody in the group was
      handed yet go into the PEL. */
  datatype Batch = Batch(db: Db, entries: seq<Entry>)

  function ReadNew(db: Db, consumer: string, count: nat): Batch
    decreases count
  {
    var rest := From(db.stream.Keys, db.lastDelivered + 1);
    if count == 0 || rest == {} then
      Batch(db, [])
    else
      var id := Least(rest);
      var batch := ReadNew(HandedOut(db, consumer, id), consumer, count - 1);
      batch.(entries := [Entry(id, db.stream[id])] + batch.entries)
  }

  function Acked(db: Db, id: Id): Db {
    db.(pel := db.pel - {id})
  }

  /** What the dead-letter stream is capped at. */
  const MAX_LETTERS: nat := 1000

  /** How many of `length` letters XADD MAXLEN ~ removes when the server wants to
      remove `evict`: it may keep more than the cap, but never goes below it. */
  function Evictable(length: nat, evict: nat): (n: nat)
    ensures n <= length && n <= evict
    ensures n > 0 ==> n <= length - MAX_LETTERS
  {
    var surplus := if length > MAX_LETTERS then length - MAX_LETTERS else 0;
    if evict < surplus then evict else surplus
  }

  /** XADD MAXLEN ~ of one letter, at the expense of the oldest ones. */
  function Quarantined(db: Db, letter: DeadLetter, evict: nat): Db {
    var letters := db.dlq + [letter];
    db.(dlq := letters[Evictable(|letters|, evict)..])
  }

  /** The letter just written is the newest one, whatever was evicted for it. */
  lemma LetterLands(db: Db, letter: DeadLetter, evict: nat)
    ensures
      var dlq := Quarantined(db, letter, evict).dlq;
      && dlq != [] && dlq[|dlq| - 1] == letter
      && (|db.dlq| >= 1000 ==> |dlq| >= 1000)
      && (|db.dlq| < 1000 ==> dlq == db.dlq + [letter])
  {
  }

  function LostCounted(db: Db): Db {
    db.(lost := db.lost + 1)
  }

  /** XADD under an id of the server's choosing, which must grow. */
  function Added(db: Db, id: Id, fields: Fields): Db {
    if id > db.lastId then db.(stream := db.stream[id := fields], lastId := id) else db
  }

  /** XTRIM MINID and the trimming part of XADD MAXLEN: the oldest entries go,
      and the PEL is not consulted. */
  function Trimmed(db: Db, minId: Id): Db {
    db.(stream := map id | id in db.stream && minId <= id :: db.stream[id])
  }

  function Ticked(db: Db, ms: nat): Db {
    db.(now := db.now + ms)
  }

  /** Everything another client of the same group may do meanwhile. */
  datatype Command =
    | Tick(ms: nat)
    | Add(newId: Id, fields: Fields)
    | Trim(minId: Id)
    | Read(consumer: string, count: nat)
    | Claim(consumer: string, minIdle: nat, start: Id, count: nat)
    | Ack(id: Id)
    | DeadLetterAdd(letter: DeadLetter, evict: nat)
    | CountLost

  function Apply(db: Db, c: Command): Db {
    match c
    case Tick(ms) => Ticked(db, ms)
    case Add(id, fields) => Added(db, id, fields)
    case Trim(minId) => Trimmed(db, minId)
    case Read(consumer, count) => ReadNew(db, consumer, count).db
    case Claim(consumer, minIdle, start, count) => AutoClaim(db, consumer, minIdle, start, count).db
    case Ack(id) => Acked(db, id)
    case DeadLetterAdd(letter, evict) => Quarantined(db, letter, evict)
    case CountLost => LostCounted(db)
  }

  function ApplyAll(db: Db, commands: seq<Command>): Db
    decreases |commands|
  {
    if commands == [] then db else ApplyAll(Apply(db, commands[0]), commands[1..])
  }

  /** The entry `id` is handed out for the first time. */
  function HandedOut(db: Db, consumer: string, id: Id): Db {
    db.(lastDelivered := id, pel := db.pel[id := Pending(consumer, db.now, 1)])
  }

  lemma {:induction false} ReadNewFrame(db: Db, consumer: string, count: nat)
    requires Valid(db)
    ensures
      var batch := ReadNew(db, consumer, count);
      && Valid(batch.db)
      && batch.db == db.(pel := batch.db.pel, lastDelivered := batch.db.lastDelivered)
      && db.lastDelivered <= batch.db.lastDelivered
      && (forall id :: id in db.pel ==> id in batch.db.pel && batch.db.pel[id] == db.pel[id])
      && (forall e :: e in batch.entries ==>
            db.lastDelivered < e.id <= batch.db.lastDelivered && e.id in db.stream && e.fields == db.stream[e.id])
    decreases count
  {
    var rest := From(db.stream.Keys, db.lastDelivered + 1);
    if count > 0 && rest != {} {
      var id := Least(rest);
      assert id in rest;
      ReadNewFrame(HandedOut(db, consumer, id), consumer, count - 1);
    }
  }

  lemma IdsCons(id: Id, head: Entry, tail: seq<Entry>)
    ensures id in Ids([head] + tail) <==> id == head.id || id in Ids(tail)
  {
    IdsConcat([head], tail);
    assert Ids([head]) == [head.id];
  }

  lemma {:induction false} ReadNewPel(db: Db, consumer: string, count: nat, id: Id)
    requires Valid(db)
    ensures
      var batch := ReadNew(db, consumer, count);
      id in batch.db.pel <==> id in db.pel || id in Ids(batch.entries)
    decreases count
  {
    var rest := From(db.stream.Keys, db.lastDelivered + 1);
    if count > 0 && rest != {} {
      var first := Least(rest);
      assert first in rest;
      var next := HandedOut(db, consumer, first);
      ReadNewPel(next, consumer, count - 1, id);
      IdsCons(id, Entry(first, db.stream[first]), ReadNew(next, consumer, count - 1).entries);
    }
  }

  /** A first delivery is counted as one, to the reader and at this moment. */
  lemma {:induction false} ReadNewRecords(db: Db, consumer: string, count: nat, id: Id)
    requires Valid(db)
    ensures
      var batch := ReadNew(db, consumer, count);
      id in batch.db.pel && id !in db.pel ==> batch.db.pel[id] == Pending(consumer, db.now, 1)
    decreases count
  {
    var rest := Unread(db);
    if count > 0 && rest != {} {
      var first := Least(rest);
      assert first in rest;
      var next := HandedOut(db, consumer, first);
      ReadNewRecords(next, consumer, count - 1, id);
      ReadNewFrame(next, consumer, count - 1);
    }
  }

  lemma {:induction false} ReadNewSkipsNone(db: Db, consumer: string, count: nat, id: Id)
    requires Valid(db) && id in db.stream && db.lastDelivered < id
    ensures
      var batch := ReadNew(db, consumer, count);
      id <= batch.db.lastDelivered ==> id in batch.db.pel
    decreases count
  {
    var rest := From(db.stream.Keys, db.lastDelivered + 1);
    if count > 0 && rest != {} {
      var first := Least(rest);
      assert first in rest && id in rest;
      var next := HandedOut(db, consumer, first);
      if id == first {
        ReadNewFrame(next, consumer, count - 1);
      } else {
        ReadNewSkipsNone(next, consumer, count - 1, id);
      }
    }
  }

  predicate Ascending(ids: seq<Id>) {
    forall i, j :: 0 <= i < j < |ids| ==> ids[i] < ids[j]
  }

  lemma AscendingCons(first: Entry, tail: seq<Entry>)
    requires Ascending(Ids(tail)) && forall e :: e in tail ==> first.id < e.id
    ensures Ascending(Ids([first] + tail))
  {
    forall i | 0 <= i < |tail| ensures first.id < tail[i].id {
      assert tail[i] in tail;
    }
  }

  /** The order and the number of what is handed out. */
  lemma {:induction false} ReadNewCounts(db: Db, consumer: string, count: nat)
    requires Valid(db)
    ensures
      var batch := ReadNew(db, consumer, count);
      && Ascending(Ids(batch.entries))
      && |batch.entries| <= count
      && (|batch.entries| < count ==> Unread(batch.db) == {})
      && (batch.entries == [] ==> batch.db == db)
    decreases count
  {
    var rest := Unread(db);
    if count > 0 && rest != {} {
      var first := Least(rest);
      assert first in rest;
      var next := HandedOut(db, consumer, first);
      ReadNewCounts(next, consumer, count - 1);
      ReadNewFrame(next, consumer, count - 1);
      AscendingCons(Entry(first, db.stream[first]), ReadNew(next, consumer, count - 1).entries);
    }
  }

  /** A read hands out the next entries nobody was handed yet, oldest first and
      with their bodies, and skips none of them: as many as it was asked for,
      or all there are. */
  lemma ReadNewFacts(db: Db, consumer: string, count: nat)
    requires Valid(db)
    ensures
      var batch := ReadNew(db, consumer, count);
      && Valid(batch.db)
      && batch.db == db.(pel := batch.db.pel, lastDelivered := batch.db.lastDelivered)
      && db.lastDelivered <= batch.db.lastDelivered
      && (forall id :: id in batch.db.pel <==> id in db.pel || id in Ids(batch.entries))
      && (forall id :: id in db.pel ==> batch.db.pel[id] == db.pel[id])
      && (forall id :: id in batch.db.pel && id !in db.pel ==> batch.db.pel[id] == Pending(consumer, db.now, 1))
      && (forall e :: e in batch.entries ==>
            db.lastDelivered < e.id <= batch.db.lastDelivered && e.id in db.stream && e.fields == db.stream[e.id])
      && (forall id :: id in db.stream && db.lastDelivered < id <= batch.db.lastDelivered ==>
            id in batch.db.pel)
      && Ascending(Ids(batch.entries))
      && |batch.entries| <= count
      && (|batch.entries| < count ==> Unread(batch.db) == {})
  {
    var batch := ReadNew(db, consumer, count);
    ReadNewFrame(db, consumer, count);
    ReadNewCounts(db, consumer, count);
    forall id: Id
      ensures id in batch.db.pel <==> id in db.pel || id in Ids(batch.entries)
    {
      ReadNewPel(db, consumer, count, id);
    }
    forall id | id in batch.db.pel && id !in db.pel
      ensures batch.db.pel[id] == Pending(consumer, db.now, 1)
    {
      ReadNewRecords(db, consumer, count, id);
    }
    forall id | id in db.stream && db.lastDelivered < id <= batch.db.lastDelivered
      ensures id in batch.db.pel
    {
      ReadNewSkipsNone(db, consumer, count, id);
    }
  }

  /** Every command keeps the database consistent and never sets the clock back. */
  lemma ApplyValid(db: Db, c: Command)
    requires Valid(db)
    ensures Valid(Apply(db, c)) && db.now <= Apply(db, c).now
  {
    match c {
      case Read(consumer, count) => ReadNewFacts(db, consumer, count);
      case Claim(consumer, minIdle, start, count) =>
        ScanFrame(db, consumer, minIdle, start, count, SCAN_FACTOR * count);
      case _ =>
    }
  }

  lemma {:induction false} ApplyAllValid(db: Db, commands: seq<Command>)
    requires Valid(db)
    ensures Valid(ApplyAll(db, commands)) && db.now <= ApplyAll(db, commands).now
    decreases |commands|
  {
    if commands != [] {
      ApplyValid(db, commands[0]);
      ApplyAllValid(Apply(db, commands[0]), commands[1..]);
    }
  }

  lemma {:induction false} StaysOut(db: Db, commands: seq<Command>, id: Id)
    requires Valid(db) && id <= db.lastDelivered && id !in db.pel
    ensures id !in ApplyAll(db, commands).pel
    decreases |commands|
  {
    if commands != [] {
      var c := commands[0];
      ApplyValid(db, c);
      match c {
        case Read(consumer, count) =>
          ReadNewFacts(db, consumer, count);
          InBatch(db, consumer, count, id);
        case Claim(consumer, minIdle, start, count) =>
          ScanFrame(db, consumer, minIdle, start, count, SCAN_FACTOR * count);
        case _ =>
      }
      StaysOut(Apply(db, c), commands[1..], id);
    }
  }

  lemma InBatch(db: Db, consumer: string, count: nat, id: Id)
    requires Valid(db) && id <= db.lastDelivered
    ensures id !in Ids(ReadNew(db, consumer, count).entries)
  {
    var entries := ReadNew(db, consumer, count).entries;
    ReadNewFrame(db, consumer, count);
    forall i | 0 <= i < |entries| ensures entries[i].id != id {
      assert entries[i] in entries;
    }
  }

  /** An acknowledged entry was delivered for good: it is off the pending list,
      and nothing any client does puts it there again. */
  lemma AckedNeverReturns(db: Db, commands: seq<Command>, id: Id)
    requires Valid(db) && id <= db.lastDelivered
    ensures id !in ApplyAll(Acked(db, id), commands).pel
  {
    StaysOut(Acked(db, id), commands, id);
  }

  /** Acknowledging one entry is no concern of the others. */
  lemma AckedLeavesTheRest(db: Db, id: Id)
    ensures Acked(db, id) == db.(pel := map k | k in db.pel && k != id :: db.pel[k])
  {
  }

  /** Silence makes every pending entry with a body claimable. */
  lemma SilenceMakesClaimable(db: Db, ms: nat, minIdle: nat, id: Id)
    requires id in db.pel && id in db.stream && db.pel[id].deliveredAt <= db.now && minIdle <= ms
    ensures Claimable(Apply(db, Tick(ms)), id, minIdle)
  {
  }
}
