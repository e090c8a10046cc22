/** Any number of typed consumers of one group, stepped one Redis call at a time,
    with publishers, trims, failing calls and crashes in between: no entry
    leaves the pending list unaccounted for. */
module StreamDelivery {
  import opened RedisStreams
  import opened ReclaimSweep

  /** Where a consumer stands with the entry it is working on. */
  datatype Task =
    | Free
    | Deciding(entry: Entry)                      // read, not yet decoded
    | Rejecting(entry: Entry, failure: string)    // poison, not yet copied
    | Settling(entry: Entry)                      // copied, not yet acknowledged
    | Handling(entry: Entry)                      // in the hands of the caller

  /** `inbox` holds entries read or claimed but not yet yielded, `toReport` the
      body-less ids of the current page that are not counted yet. */
  datatype Consumer = Consumer(task: Task, inbox: seq<Entry>, toReport: seq<Id>)

  /** All but the first two components are history: no code reads them. */
  datatype World = World(
    db: Db,
    consumers: seq<Consumer>,
    published: map<Id, Fields>,
    delivered: set<Id>,       // ever in the pending list
    handled: set<Id>,         // acknowledged by the handler that was given them
    dropped: set<Id>,         // removed by XAUTOCLAIM for want of a body
    trimmedUnread: set<Id>,   // gone before the group read them
    unreported: nat,          // dropped ids whose report was lost with a crash
    letters: seq<DeadLetter>, // ever written to the dead letters
    evicted: nat              // how many of them the cap has removed again
  )

  datatype Step =
    | Publish(newId: Id, fields: Fields)
    | TrimStep(minId: Id)
    | Pass(ms: nat)
    | ReadStep(c: nat, name: string, count: nat, fate: Fate)
    | ClaimStep(c: nat, name: string, minIdle: nat, cursor: Id, count: nat, fate: Fate)
    | Take(c: nat)
    | Judge(c: nat, poison: bool, failure: string)
    | CopyStep(c: nat, evict: nat, fate: Fate)
    | AckPoison(c: nat, fate: Fate)
    | AckHandled(c: nat, fate: Fate)
    | HandlerFails(c: nat)
    | Report(c: nat, fate: Fate)
    | Crash(c: nat)

  const AT_REST := Consumer(Free, [], [])

  predicate Ready(w: World, c: nat) {
    c < |w.consumers| && w.consumers[c] == AT_REST
  }

  function With(w: World, c: nat, consumer: Consumer): World
    requires c < |w.consumers|
  {
    w.(consumers := w.consumers[c := consumer])
  }

  function SetOf(ids: seq<Id>): set<Id> {
    set id | id in ids
  }

  /** Consumer `c` gives up on the rest of its page. */
  function GaveUp(w: World, c: nat): World
    requires c < |w.consumers|
  {
    With(w, c, AT_REST).(unreported := w.unreported + |w.consumers[c].toReport|)
  }

  /** The server writes one dead letter and evicts some of the oldest. */
  function Lettered(w: World, letter: DeadLetter, evict: nat): World {
    w.(db := Quarantined(w.db, letter, evict),
       letters := w.letters + [letter],
       evicted := w.evicted + Evictable(|w.db.dlq| + 1, evict))
  }

  function Next(w: World, s: Step): World {
    match s
    case Publish(id, fields) =>
      if id > w.db.lastId then
        w.(db := Added(w.db, id, fields), published := w.published[id := fields])
      else w
    case TrimStep(minId) =>
      w.(db := Trimmed(w.db, minId),
         trimmedUnread := w.trimmedUnread
           + set id | id in w.db.stream && id < minId && w.db.lastDelivered < id)
    case Pass(ms) => w.(db := Ticked(w.db, ms))
    case ReadStep(c, name, count, fate) =>
      if Ready(w, c) && fate != Refused then
        var batch := ReadNew(w.db, name, count);
        var w' := w.(db := batch.db, delivered := w.delivered + SetOf(Ids(batch.entries)));
        if fate == Answered then With(w', c, Consumer(Free, batch.entries, [])) else w'
      else w
    case ClaimStep(c, name, minIdle, cursor, count, fate) =>
      if Ready(w, c) && fate != Refused then
        var page := AutoClaim(w.db, name, minIdle, cursor, count);
        var w' := w.(db := page.db, dropped := w.dropped + SetOf(page.deleted));
        if fate == Answered then With(w', c, Consumer(Free, page.claimed, page.deleted))
        else w'.(unreported := w.unreported + |page.deleted|)
      else w
    case Take(c) =>
      if c < |w.consumers| && w.consumers[c].task.Free? && w.consumers[c].inbox != [] then
        var me := w.consumers[c];
        With(w, c, me.(task := Deciding(me.inbox[0]), inbox := me.inbox[1..]))
      else w
    case Judge(c, poison, failure) =>
      if c < |w.consumers| && w.consumers[c].task.Deciding? then
        var me := w.consumers[c];
        With(w, c, me.(task :=
          if poison then Rejecting(me.task.entry, failure) else Handling(me.task.entry)))
      else w
    case CopyStep(c, evict, fate) =>
      if c < |w.consumers| && w.consumers[c].task.Rejecting? then
        var me := w.consumers[c];
        var entry := me.task.entry;
        var letter := DeadLetter(entry.id, me.task.failure, entry.fields);
        var w' := if fate == Refused then w else Lettered(w, letter, evict);
        With(w', c, me.(task := if fate == Answered then Settling(entry) else Free))
      else w
    case AckPoison(c, fate) =>
      if c < |w.consumers| && w.consumers[c].task.Settling? then
        var me := w.consumers[c];
        var w' := if fate == Refused then w else w.(db := Acked(w.db, me.task.entry.id));
        With(w', c, me.(task := Free))
      else w
    case AckHandled(c, fate) =>
      if c < |w.consumers| && w.consumers[c].task.Handling? then
        var me := w.consumers[c];
        var id := me.task.entry.id;
        var w' := if fate == Refused then w
                  else w.(db := Acked(w.db, id), handled := w.handled + {id});
        With(w', c, me.(task := Free))
      else w
    case HandlerFails(c) =>
      if c < |w.consumers| && w.consumers[c].task.Handling? then
        With(w, c, w.consumers[c].(task := Free))
      else w
    case Report(c, fate) =>
      if c < |w.consumers| && w.consumers[c].task.Free?
         && w.consumers[c].inbox == [] && w.consumers[c].toReport != [] then
        var me := w.consumers[c];
        var rest := With(w, c, me.(toReport := me.toReport[1..]));
        match fate
        case Answered => rest.(db := LostCounted(w.db))
        case Refused => GaveUp(w, c)
        case Unanswered => GaveUp(rest, c).(db := LostCounted(w.db))
      else w
    case Crash(c) =>
      if c < |w.consumers| then GaveUp(w, c) else w
  }

  function Run(w: World, steps: seq<Step>): World
    decreases |steps|
  {
    if steps == [] then w else Run(Next(w, steps[0]), steps[1..])
  }

  function Start(consumers: nat): World {
    World(Db(0, map[], 0, 0, map[], [], 0), seq(consumers, _ => AT_REST), map[], {}, {}, {}, {}, 0, [], 0)
  }

  // ---------------------------------------------------------------- invariant

  /** A letter with this entry's body is among them. */
  predicate Holds(letters: seq<DeadLetter>, id: Id, body: Fields) {
    exists i :: 0 <= i < |letters| && IsFor(letters[i], id, body)
  }

  predicate IsFor(letter: DeadLetter, id: Id, body: Fields) {
    letter.entryId == id && letter.body == body
  }

  /** Its body was written to the dead letters. */
  predicate Written(w: World, id: Id, body: Fields) {
    Holds(w.letters, id, body)
  }

  predicate Genuine(w: World, e: Entry) {
    e.id in w.delivered && e.id in w.published && e.fields == w.published[e.id]
  }

  predicate Sound(w: World, me: Consumer) {
    && (!me.task.Free? ==> Genuine(w, me.task.entry))
    && (forall e :: e in me.inbox ==> Genuine(w, e))
    && (me.task.Settling? ==> Written(w, me.task.entry.id, me.task.entry.fields))
  }

  /** Everything the group was ever handed is still pending or accounted for. */
  predicate Accounted(w: World, id: Id) {
    || id in w.db.pel
    || id in w.handled
    || id in w.dropped
    || (id in w.published && Written(w, id, w.published[id]))
  }

  /** The dead-letter stream holds the letters written, without the oldest
      ones; if any is gone, as many newer ones as the cap are there. */
  predicate Capped(w: World) {
    && w.evicted <= |w.letters|
    && w.db.dlq == w.letters[w.evicted..]
    && (w.evicted > 0 ==> |w.db.dlq| >= MAX_LETTERS)
  }

  function Awaiting(consumers: seq<Consumer>): nat {
    if consumers == [] then 0 else |consumers[0].toReport| + Awaiting(consumers[1..])
  }

  predicate Histories(w: World) {
    && (forall id :: id in w.db.stream ==> id in w.published && w.published[id] == w.db.stream[id])
    && (forall id :: id in w.published ==> id <= w.db.lastId)
    && w.db.pel.Keys <= w.delivered
    && (forall id :: id in w.delivered ==> id <= w.db.lastDelivered && id in w.published)
    && w.dropped <= w.delivered
    && w.dropped !! w.db.pel.Keys
    && w.dropped !! w.db.stream.Keys
    && (forall id :: id in w.published ==>
          id in w.delivered || id in w.trimmedUnread || (id in w.db.stream && w.db.lastDelivered < id))
    && w.trimmedUnread <= w.published.Keys
    && w.trimmedUnread !! w.delivered
    && w.trimmedUnread !! w.db.stream.Keys
  }

  predicate Kept(w: World) {
    && Valid(w.db)
    && Histories(w)
    && Capped(w)
    && (forall me :: me in w.consumers ==> Sound(w, me))
    && (forall id :: id in w.delivered ==> Accounted(w, id))
  }

  /** Every body-less removal is counted, still to be counted, or its report
      was lost. */
  predicate Counted(w: World) {
    |w.dropped| == w.db.lost + Awaiting(w.consumers) + w.unreported
  }

  predicate Inv(w: World) {
    Kept(w) && Counted(w)
  }

  // ------------------------------------------------------------- preservation

  lemma {:induction false} AwaitingUpdate(consumers: seq<Consumer>, c: nat, me: Consumer)
    requires c < |consumers|
    ensures Awaiting(consumers[c := me]) == Awaiting(consumers) - |consumers[c].toReport| + |me.toReport|
  {
    if c > 0 {
      assert consumers[c := me][1..] == consumers[1..][c - 1 := me];
      AwaitingUpdate(consumers[1..], c - 1, me);
    } else {
      assert consumers[c := me][1..] == consumers[1..];
    }
  }

  /** What a consumer holds stays sound as histories grow. */
  lemma SoundGrows(w: World, w': World, me: Consumer)
    requires Sound(w, me)
    requires w.delivered <= w'.delivered
    requires forall id :: id in w.delivered && id in w.published ==>
               id in w'.published && w'.published[id] == w.published[id]
    requires w.letters <= w'.letters
    ensures Sound(w', me)
  {
    if me.task.Settling? {
      HoldsGrows(w.letters, w'.letters, me.task.entry.id, me.task.entry.fields);
    }
  }

  lemma HoldsGrows(letters: seq<DeadLetter>, more: seq<DeadLetter>, id: Id, body: Fields)
    requires Holds(letters, id, body) && letters <= more
    ensures Holds(more, id, body)
  {
    var i :| 0 <= i < |letters| && IsFor(letters[i], id, body);
    assert more[i] == letters[i];
  }

  lemma {:induction false} DistinctCard(ids: seq<Id>)
    requires forall id :: Times(id, ids) <= 1
    ensures |SetOf(ids)| == |ids|
  {
    if ids != [] {
      var tail := ids[1..];
      forall id ensures Times(id, tail) <= 1 {
        assert Times(id, ids) == One(ids[0] == id) + Times(id, tail);
      }
      DistinctCard(tail);
      TimesMember(ids[0], tail);
      assert Times(ids[0], ids) == 1 + Times(ids[0], tail);
      assert SetOf(ids) == {ids[0]} + SetOf(tail);
    }
  }

  /** What one XAUTOCLAIM reports deleted: pending ids without a body, each
      once, and these are exactly the ids it removed. */
  lemma ClaimDeletes(db: Db, name: string, minIdle: nat, cursor: Id, count: nat)
    requires Valid(db)
    ensures
      var page := AutoClaim(db, name, minIdle, cursor, count);
      && |SetOf(page.deleted)| == |page.deleted|
      && SetOf(page.deleted) == db.pel.Keys - page.db.pel.Keys
      && SetOf(page.deleted) !! db.stream.Keys
  {
    var page := AutoClaim(db, name, minIdle, cursor, count);
    forall id
      ensures Times(id, page.deleted) <= 1
      ensures id in page.deleted <==> id in db.pel && id !in page.db.pel
      ensures id in page.deleted ==> id !in db.stream
    {
      ScanDeletes(db, name, minIdle, cursor, count, SCAN_FACTOR * count, id);
      ScanPel(db, name, minIdle, cursor, count, SCAN_FACTOR * count, id);
      TimesMember(id, page.deleted);
    }
    DistinctCard(page.deleted);
  }

  /** Claimed entries are pending and carry the body the stream has for them. */
  lemma ClaimClaims(db: Db, name: string, minIdle: nat, cursor: Id, count: nat, e: Entry)
    requires Valid(db)
    requires e in AutoClaim(db, name, minIdle, cursor, count).claimed
    ensures e.id in db.pel && e.id in db.stream && e.fields == db.stream[e.id]
  {
    var page := AutoClaim(db, name, minIdle, cursor, count);
    ScanFrame(db, name, minIdle, cursor, count, SCAN_FACTOR * count);
    ScanClaims(db, name, minIdle, cursor, count, SCAN_FACTOR * count, e.id);
    var i :| 0 <= i < |page.claimed| && page.claimed[i] == e;
    assert Ids(page.claimed)[i] == e.id;
    TimesMember(e.id, Ids(page.claimed));
  }

  /** Replacing what one consumer holds by something sound. */
  lemma SwapKeeps(w: World, c: nat, me: Consumer)
    requires Kept(w) && c < |w.consumers| && Sound(w, me)
    ensures Kept(With(w, c, me))
    ensures Awaiting(With(w, c, me).consumers) ==
              Awaiting(w.consumers) - |w.consumers[c].toReport| + |me.toReport|
  {
    AwaitingUpdate(w.consumers, c, me);
    var w' := With(w, c, me);
    forall other | other in w'.consumers ensures Sound(w', other) {
      assert other == me || other in w.consumers;
      SoundGrows(w, w', other);
    }
    forall id | id in w'.delivered ensures Accounted(w', id) {
      assert Accounted(w, id);
    }
  }

  /** The server's side of a step, before any consumer hears of it. */
  lemma GrowKeeps(w: World, w': World)
    requires Kept(w) && Valid(w'.db) && Histories(w') && Capped(w')
    requires w'.consumers == w.consumers
    requires w.delivered <= w'.delivered && w.handled <= w'.handled && w.dropped <= w'.dropped
    requires w.letters <= w'.letters
    requires forall id :: id in w.published ==> id in w'.published && w'.published[id] == w.published[id]
    requires forall id :: id in w'.delivered && id !in w.delivered ==> Accounted(w', id)
    requires forall id :: id in w.db.pel && id !in w'.db.pel ==> Accounted(w', id)
    ensures Kept(w')
  {
    forall me | me in w'.consumers ensures Sound(w', me) { SoundGrows(w, w', me); }
    forall id | id in w'.delivered ensures Accounted(w', id) {
      if id in w.delivered {
        assert Accounted(w, id);
        if id in w.published && Written(w, id, w.published[id]) {
          HoldsGrows(w.letters, w'.letters, id, w.published[id]);
        }
      }
    }
  }

  lemma InIds(entries: seq<Entry>, id: Id)
    ensures id in Ids(entries) <==> exists e :: e in entries && e.id == id
  {
    if id in Ids(entries) {
      var i :| 0 <= i < |entries| && Ids(entries)[i] == id;
      assert entries[i] in entries;
    }
    forall e | e in entries && e.id == id ensures id in Ids(entries) {
      var i :| 0 <= i < |entries| && entries[i] == e;
      assert Ids(entries)[i] == id;
    }
  }

  lemma ServerRead(w: World, name: string, count: nat) returns (w': World)
    requires Kept(w)
    ensures
      var batch := ReadNew(w.db, name, count);
      && w' == w.(db := batch.db, delivered := w.delivered + SetOf(Ids(batch.entries)))
      && Kept(w')
      && w'.db.lost == w.db.lost
      && forall e :: e in batch.entries ==> Genuine(w', e)
  {
    var batch := ReadNew(w.db, name, count);
    w' := w.(db := batch.db, delivered := w.delivered + SetOf(Ids(batch.entries)));
    ReadNewFacts(w.db, name, count);
    forall id ensures id in SetOf(Ids(batch.entries)) <==> exists e :: e in batch.entries && e.id == id {
      InIds(batch.entries, id);
    }
    GrowKeeps(w, w');
  }

  lemma ReadKeeps(w: World, s: Step)
    requires Inv(w) && s.ReadStep?
    ensures Inv(Next(w, s))
  {
    if Ready(w, s.c) && s.fate != Refused {
      var w' := ServerRead(w, s.name, s.count);
      if s.fate == Answered {
        SwapKeeps(w', s.c, Consumer(Free, ReadNew(w.db, s.name, s.count).entries, []));
      }
    }
  }

  lemma ServerClaim(w: World, name: string, minIdle: nat, cursor: Id, count: nat) returns (w': World)
    requires Kept(w)
    ensures
      var page := AutoClaim(w.db, name, minIdle, cursor, count);
      && w' == w.(db := page.db, dropped := w.dropped + SetOf(page.deleted))
      && Kept(w')
      && w'.db.lost == w.db.lost
      && |w'.dropped| == |w.dropped| + |page.deleted|
      && forall e :: e in page.claimed ==> Genuine(w', e)
  {
    var page := AutoClaim(w.db, name, minIdle, cursor, count);
    w' := w.(db := page.db, dropped := w.dropped + SetOf(page.deleted));
    ScanFrame(w.db, name, minIdle, cursor, count, SCAN_FACTOR * count);
    ClaimDeletes(w.db, name, minIdle, cursor, count);
    assert w.dropped !! SetOf(page.deleted);
    forall e | e in page.claimed ensures Genuine(w', e) {
      ClaimClaims(w.db, name, minIdle, cursor, count, e);
    }
    GrowKeeps(w, w');
  }

  lemma ClaimKeeps(w: World, s: Step)
    requires Inv(w) && s.ClaimStep?
    ensures Inv(Next(w, s))
  {
    if Ready(w, s.c) && s.fate != Refused {
      var w' := ServerClaim(w, s.name, s.minIdle, s.cursor, s.count);
      var page := AutoClaim(w.db, s.name, s.minIdle, s.cursor, s.count);
      if s.fate == Answered {
        SwapKeeps(w', s.c, Consumer(Free, page.claimed, page.deleted));
      } else {
        GrowKeeps(w', Next(w, s));
      }
    }
  }

  lemma LetteredKeeps(w: World, letter: DeadLetter, evict: nat)
    requires Kept(w)
    ensures Kept(Lettered(w, letter, evict)) && Written(Lettered(w, letter, evict), letter.entryId, letter.body)
  {
    var w' := Lettered(w, letter, evict);
    assert w'.letters[|w.letters|] == letter;
    assert w.db.dlq + [letter] == w'.letters[w.evicted..];
    assert w'.db.dlq == w'.letters[w'.evicted..];
    GrowKeeps(w, w');
  }

  lemma ServerCopy(w: World, letter: DeadLetter, evict: nat, fate: Fate) returns (w': World)
    requires Kept(w)
    ensures w' == if fate == Refused then w else Lettered(w, letter, evict)
    ensures Kept(w') && (fate == Answered ==> Written(w', letter.entryId, letter.body))
    ensures w'.consumers == w.consumers && w'.delivered == w.delivered && w'.published == w.published
    ensures w'.dropped == w.dropped && w'.db.lost == w.db.lost && w'.unreported == w.unreported
  {
    w' := if fate == Refused then w else Lettered(w, letter, evict);
    LetteredKeeps(w, letter, evict);
  }

  lemma CopyKeeps(w: World, s: Step)
    requires Inv(w) && s.CopyStep?
    ensures Inv(Next(w, s))
  {
    if s.c < |w.consumers| && w.consumers[s.c].task.Rejecting? {
      var me := w.consumers[s.c];
      assert me in w.consumers && Sound(w, me);
      var entry := me.task.entry;
      var w' := ServerCopy(w, DeadLetter(entry.id, me.task.failure, entry.fields), s.evict, s.fate);
      var me' := me.(task := if s.fate == Answered then Settling(entry) else Free);
      SwapKeeps(w', s.c, me');
      assert Next(w, s) == With(w', s.c, me');
    }
  }

  lemma AckPoisonKeeps(w: World, s: Step)
    requires Inv(w) && s.AckPoison?
    ensures Inv(Next(w, s))
  {
    if s.c < |w.consumers| && w.consumers[s.c].task.Settling? {
      var me := w.consumers[s.c];
      assert me in w.consumers && Sound(w, me);
      var w' := if s.fate == Refused then w else w.(db := Acked(w.db, me.task.entry.id));
      if s.fate != Refused {
        assert Accounted(w', me.task.entry.id);
        GrowKeeps(w, w');
      }
      SwapKeeps(w', s.c, me.(task := Free));
    }
  }

  lemma AckHandledKeeps(w: World, s: Step)
    requires Inv(w) && s.AckHandled?
    ensures Inv(Next(w, s))
  {
    if s.c < |w.consumers| && w.consumers[s.c].task.Handling? {
      var me := w.consumers[s.c];
      assert me in w.consumers && Sound(w, me);
      var id := me.task.entry.id;
      var w' := if s.fate == Refused then w
                else w.(db := Acked(w.db, id), handled := w.handled + {id});
      if s.fate != Refused {
        assert Accounted(w', id);
        GrowKeeps(w, w');
      }
      SwapKeeps(w', s.c, me.(task := Free));
    }
  }

  lemma ReportKeeps(w: World, s: Step)
    requires Inv(w) && s.Report?
    ensures Inv(Next(w, s))
  {
    var w' := Next(w, s);
    if w' != w {
      var me := w.consumers[s.c];
      assert me in w.consumers && Sound(w, me);
      var left := if s.fate == Answered then me.(toReport := me.toReport[1..]) else AT_REST;
      SwapKeeps(w, s.c, left);
      CountersKeep(With(w, s.c, left), w');
    }
  }

  /** The counters are nothing the histories or the consumers depend on. */
  lemma CountersKeep(w: World, w': World)
    requires Kept(w)
    requires w' == w.(db := w.db.(lost := w'.db.lost), unreported := w'.unreported)
    ensures Kept(w')
  {
    GrowKeeps(w, w');
  }

  lemma LocalKeeps(w: World, s: Step)
    requires Inv(w)
    requires s.Take? || s.Judge? || s.HandlerFails?
    ensures Inv(Next(w, s))
  {
    var w' := Next(w, s);
    if w' != w {
      var me := w.consumers[s.c];
      assert me in w.consumers && Sound(w, me);
      SwapKeeps(w, s.c, w'.consumers[s.c]);
    }
  }

  lemma CrashKeeps(w: World, s: Step)
    requires Inv(w) && s.Crash?
    ensures Inv(Next(w, s))
  {
    if s.c < |w.consumers| {
      SwapKeeps(w, s.c, AT_REST);
      GrowKeeps(With(w, s.c, AT_REST), Next(w, s));
    }
  }

  lemma OutsideKeeps(w: World, s: Step)
    requires Inv(w)
    requires s.Publish? || s.TrimStep? || s.Pass?
    ensures Inv(Next(w, s))
  {
    GrowKeeps(w, Next(w, s));
  }

  /** Every step of every participant keeps the invariant. */
  lemma StepKeeps(w: World, s: Step)
    requires Inv(w)
    ensures Inv(Next(w, s))
  {
    match s {
      case ReadStep(_, _, _, _) => ReadKeeps(w, s);
      case ClaimStep(_, _, _, _, _, _) => ClaimKeeps(w, s);
      case CopyStep(_, _, _) => CopyKeeps(w, s);
      case AckPoison(_, _) => AckPoisonKeeps(w, s);
      case AckHandled(_, _) => AckHandledKeeps(w, s);
      case Report(_, _) => ReportKeeps(w, s);
      case Crash(_) => CrashKeeps(w, s);
      case Publish(_, _) => OutsideKeeps(w, s);
      case TrimStep(_) => OutsideKeeps(w, s);
      case Pass(_) => OutsideKeeps(w, s);
      case _ => LocalKeeps(w, s);
    }
  }

  lemma {:induction false} RunKeeps(w: World, steps: seq<Step>)
    requires Inv(w)
    ensures Inv(Run(w, steps))
    decreases |steps|
  {
    if steps != [] {
      StepKeeps(w, steps[0]);
      RunKeeps(Next(w, steps[0]), steps[1..]);
    }
  }

  lemma {:induction false} AwaitingAtRest(consumers: seq<Consumer>)
    requires forall me :: me in consumers ==> me.toReport == []
    ensures Awaiting(consumers) == 0
  {
    if consumers != [] {
      AwaitingAtRest(consumers[1..]);
    }
  }

  lemma StartInv(consumers: nat)
    ensures Inv(Start(consumers))
  {
    AwaitingAtRest(Start(consumers).consumers);
  }

  // ------------------------------------------------------------------ theorems

  /** In every run, whatever was ever pending is still pending, was acknowledged
      by its own handler, was written to the dead letters with the body it was
      published with, or was handed to a consumer as body-less by a claim. */
  lemma NoSilentLoss(consumers: nat, steps: seq<Step>, id: Id)
    ensures
      var w := Run(Start(consumers), steps);
      id in w.delivered ==>
        || id in w.db.pel
        || id in w.handled
        || (id in w.dropped && id !in w.db.stream)
        || (id in w.published && Written(w, id, w.published[id]))
  {
    StartInv(consumers);
    RunKeeps(Start(consumers), steps);
    var w := Run(Start(consumers), steps);
    assert id in w.delivered ==> Accounted(w, id);
  }

  /** The letters for this entry are among those the cap has removed. */
  predicate AllEvicted(w: World, id: Id, body: Fields) {
    forall i :: 0 <= i < |w.letters| && IsFor(w.letters[i], id, body) ==> i < w.evicted
  }

  lemma HeldUnlessEvicted(w: World, id: Id, body: Fields)
    requires Capped(w)
    ensures Holds(w.db.dlq, id, body) <==> !AllEvicted(w, id, body)
  {
    if Holds(w.db.dlq, id, body) {
      var i :| 0 <= i < |w.db.dlq| && IsFor(w.db.dlq[i], id, body);
      assert w.letters[w.evicted + i] == w.db.dlq[i];
    }
    if i :| 0 <= i < |w.letters| && IsFor(w.letters[i], id, body) && i >= w.evicted {
      assert w.db.dlq[i - w.evicted] == w.letters[i];
    }
  }

  /** What the dead letters still show, in every run: the letters written, but
      for the oldest. So a body that was written is gone if and only if all
      its letters were evicted, and then as many newer letters as the cap are
      there. Nothing is gone before more letters than the cap were written. */
  lemma GoneExactlyIfEvicted(consumers: nat, steps: seq<Step>, id: Id, body: Fields)
    ensures
      var w := Run(Start(consumers), steps);
      && Capped(w)
      && (Written(w, id, body) && !Holds(w.db.dlq, id, body) <==> Written(w, id, body) && AllEvicted(w, id, body))
      && (Written(w, id, body) && !Holds(w.db.dlq, id, body) ==> |w.db.dlq| >= 1000)
      && (|w.letters| <= 1000 ==> w.evicted == 0)
  {
    StartInv(consumers);
    RunKeeps(Start(consumers), steps);
    CappedEviction(Run(Start(consumers), steps), id, body);
  }

  lemma CappedEviction(w: World, id: Id, body: Fields)
    requires Capped(w)
    ensures Holds(w.db.dlq, id, body) <==> !AllEvicted(w, id, body)
    ensures Written(w, id, body) && AllEvicted(w, id, body) ==> |w.db.dlq| >= MAX_LETTERS
    ensures |w.letters| <= MAX_LETTERS ==> w.evicted == 0
  {
    HeldUnlessEvicted(w, id, body);
    if Written(w, id, body) && AllEvicted(w, id, body) {
      var i :| 0 <= i < |w.letters| && IsFor(w.letters[i], id, body);
    }
  }

  /** Nothing but another dead letter, written to a full stream, removes one. */
  lemma LettersLeaveOnlyBy(w: World, s: Step, id: Id, body: Fields)
    requires Capped(w)
    requires Holds(w.db.dlq, id, body) && !Holds(Next(w, s).db.dlq, id, body)
    ensures s.CopyStep? && |w.db.dlq| >= 1000 && |Next(w, s).letters| == |w.letters| + 1
  {
    if s.ReadStep? {
      ReadNewKeepsLetters(w.db, s.name, s.count);
    } else if s.ClaimStep? {
      ScanFrame(w.db, s.name, s.minIdle, s.cursor, s.count, SCAN_FACTOR * s.count);
    } else if s.CopyStep? && Next(w, s).letters != w.letters && |w.db.dlq| < MAX_LETTERS {
      HoldsGrows(w.db.dlq, Next(w, s).db.dlq, id, body);
    }
  }

  lemma {:induction false} ReadNewKeepsLetters(db: Db, name: string, count: nat)
    ensures ReadNew(db, name, count).db.dlq == db.dlq
    decreases count
  {
    var rest := From(db.stream.Keys, db.lastDelivered + 1);
    if count > 0 && rest != {} {
      ReadNewKeepsLetters(HandedOut(db, name, Least(rest)), name, count - 1);
    }
  }

  /** Only reads, claims and acknowledgements touch the pending list. */
  lemma OthersLeavePendingAlone(w: World, s: Step)
    requires !s.ReadStep? && !s.ClaimStep? && !s.AckPoison? && !s.AckHandled?
    ensures Next(w, s).db.pel == w.db.pel
  {
  }

  predicate HandlersOwnAck(w: World, s: Step, id: Id) {
    && s.AckHandled? && s.c < |w.consumers|
    && w.consumers[s.c].task.Handling? && w.consumers[s.c].task.entry.id == id
  }

  lemma AcksRemoveTheirEntry(w: World, s: Step, id: Id)
    requires Inv(w) && (s.AckPoison? || s.AckHandled?)
    requires id in w.db.pel && id !in Next(w, s).db.pel
    ensures HandlersOwnAck(w, s, id)
            || (s.AckPoison? && id in w.published && Written(w, id, w.published[id]))
  {
    assert s.c < |w.consumers| && !w.consumers[s.c].task.Free?;
    var me := w.consumers[s.c];
    assert me in w.consumers && Sound(w, me);
    assert id == me.task.entry.id;
  }

  lemma ClaimEffect(w: World, s: Step)
    requires s.ClaimStep?
    ensures
      var page := AutoClaim(w.db, s.name, s.minIdle, s.cursor, s.count);
      || Next(w, s) == w
      || (Next(w, s).db == page.db && Next(w, s).dropped == w.dropped + SetOf(page.deleted))
  {
  }

  lemma ClaimsRemoveBodyless(w: World, s: Step, id: Id)
    requires Inv(w) && s.ClaimStep?
    requires id in w.db.pel && id !in Next(w, s).db.pel
    ensures id !in w.db.stream && id in Next(w, s).dropped
  {
    var deleted := SetOf(AutoClaim(w.db, s.name, s.minIdle, s.cursor, s.count).deleted);
    ClaimDeletes(w.db, s.name, s.minIdle, s.cursor, s.count);
    ClaimEffect(w, s);
    assert id in deleted;
  }

  predicate LeavesBy(w: World, s: Step, id: Id) {
    || HandlersOwnAck(w, s, id)
    || (s.AckPoison? && id in w.published && Written(w, id, w.published[id]))
    || (s.ClaimStep? && id !in w.db.stream && id in Next(w, s).dropped)
  }

  lemma StepLeavesBy(w: World, s: Step, id: Id)
    requires Inv(w)
    requires id in w.db.pel && id !in Next(w, s).db.pel
    ensures LeavesBy(w, s, id)
  {
    if s.ReadStep? {
      ReadNewFacts(w.db, s.name, s.count);
    } else if s.ClaimStep? {
      ClaimsRemoveBodyless(w, s, id);
    } else if s.AckPoison? || s.AckHandled? {
      AcksRemoveTheirEntry(w, s, id);
    } else {
      OthersLeavePendingAlone(w, s);
    }
  }

  /** Step by step: the only three ways out of the pending list. */
  lemma LeavesPendingOnlyBy(consumers: nat, steps: seq<Step>, s: Step, id: Id)
    requires id in Run(Start(consumers), steps).db.pel
    requires id !in Next(Run(Start(consumers), steps), s).db.pel
    ensures LeavesBy(Run(Start(consumers), steps), s, id)
  {
    StartInv(consumers);
    RunKeeps(Start(consumers), steps);
    StepLeavesBy(Run(Start(consumers), steps), s, id);
  }

  /** No crash, and no reply of XAUTOCLAIM or of the counter got lost. */
  predicate CountersWork(steps: seq<Step>) {
    forall s :: s in steps ==>
      !s.Crash? && (s.Report? ==> s.fate == Answered) && (s.ClaimStep? ==> s.fate != Unanswered)
  }

  lemma {:induction false} NothingUnreported(w: World, steps: seq<Step>)
    requires CountersWork(steps)
    ensures Run(w, steps).unreported == w.unreported
    decreases |steps|
  {
    if steps != [] {
      var s := steps[0];
      assert s in steps;
      assert CountersWork(steps[1..]);
      NothingUnreported(Next(w, s), steps[1..]);
      assert Next(w, s).unreported == w.unreported;
    }
  }

  /** No consumer still has body-less removals to report. */
  predicate AllReported(w: World) {
    forall me :: me in w.consumers ==> me.toReport == []
  }

  /** The lost counter never exceeds the body-less removals. Once no page is
      half-reported it equals them if and only if no report was lost with a
      crash or a reply, which holds in every run without those. */
  lemma LostCountIsExact(consumers: nat, steps: seq<Step>)
    ensures
      var w := Run(Start(consumers), steps);
      && w.db.lost <= |w.dropped|
      && |w.dropped| == w.db.lost + Awaiting(w.consumers) + w.unreported
      && (AllReported(w) ==> (w.db.lost == |w.dropped| <==> w.unreported == 0))
      && (CountersWork(steps) ==> w.unreported == 0)
  {
    StartInv(consumers);
    RunKeeps(Start(consumers), steps);
    var w := Run(Start(consumers), steps);
    if CountersWork(steps) {
      NothingUnreported(Start(consumers), steps);
    }
    if AllReported(w) {
      AwaitingAtRest(w.consumers);
    }
  }

  const PUBLISH_ONE := Publish(1, map[])
  const READ_UNHEARD := ReadStep(0, "c", 1, Unanswered)
  const TRIM_ONE := TrimStep(2)
  const CLAIM_BODYLESS := ClaimStep(0, "c", 0, 0, 1, Answered)

  /** A removal whose report dies with its consumer is silent: the entry is in
      no pending list, stream or dead letter, nobody handled it, every consumer
      is at rest, and the counter does not know of it. */
  lemma CrashedReportIsSilent()
    ensures
      var w := Run(Start(1), [PUBLISH_ONE, READ_UNHEARD, TRIM_ONE, CLAIM_BODYLESS, Crash(0)]);
      && 1 in w.published && 1 in w.delivered && 1 !in w.db.pel && 1 !in w.db.stream
      && w.db.dlq == [] && w.handled == {} && w.consumers == [AT_REST]
      && w.db.lost == 0 && w.unreported == 1
  {
    var w3 := ReadThenTrimmed();
    ClaimThenCrash(w3);
    var w4 := Next(w3, CLAIM_BODYLESS);
    var w2 := Next(Next(Start(1), PUBLISH_ONE), READ_UNHEARD);
    RunCons(Start(1), PUBLISH_ONE, [READ_UNHEARD, TRIM_ONE, CLAIM_BODYLESS, Crash(0)]);
    RunCons(Next(Start(1), PUBLISH_ONE), READ_UNHEARD, [TRIM_ONE, CLAIM_BODYLESS, Crash(0)]);
    RunCons(w2, TRIM_ONE, [CLAIM_BODYLESS, Crash(0)]);
    RunCons(w3, CLAIM_BODYLESS, [Crash(0)]);
    RunCons(w4, Crash(0), []);
  }

  lemma RunCons(w: World, s: Step, rest: seq<Step>)
    ensures Run(w, [s] + rest) == Run(Next(w, s), rest)
    ensures rest == [] ==> Run(w, [s]) == Next(w, s)
    ensures |rest| == 1 ==> Run(w, [s, rest[0]]) == Run(Next(w, s), rest)
    ensures |rest| == 2 ==> Run(w, [s, rest[0], rest[1]]) == Run(Next(w, s), rest)
    ensures |rest| == 3 ==> Run(w, [s, rest[0], rest[1], rest[2]]) == Run(Next(w, s), rest)
    ensures |rest| == 4 ==> Run(w, [s, rest[0], rest[1], rest[2], rest[3]]) == Run(Next(w, s), rest)
  {
    var all := [s] + rest;
    assert all[1..] == rest;
    assert rest == [] ==> all == [s];
    assert |rest| == 1 ==> all == [s, rest[0]];
    assert |rest| == 2 ==> all == [s, rest[0], rest[1]];
    assert |rest| == 3 ==> all == [s, rest[0], rest[1], rest[2]];
    assert |rest| == 4 ==> all == [s, rest[0], rest[1], rest[2], rest[3]];
  }

  /** The world once the entry was handed out to nobody and trimmed. */
  lemma ReadThenTrimmed() returns (w: World)
    ensures w == Next(Next(Next(Start(1), PUBLISH_ONE), READ_UNHEARD), TRIM_ONE)
    ensures w.db.stream == map[] && w.db.pel.Keys == {1} && w.db.dlq == [] && w.db.lost == 0
    ensures w.consumers == [AT_REST] && 1 in w.published && w.delivered == {1} && w.handled == {} && w.unreported == 0
  {
    var w1 := Next(Start(1), PUBLISH_ONE);
    assert Start(1).consumers == [AT_REST];
    assert w1.db.stream == map[1 := map[]] && w1.consumers == [AT_REST];
    ReadOne(w1.db);
    var w2 := Next(w1, READ_UNHEARD);
    assert Ready(w1, 0);
    assert SetOf([1]) == {1};
    assert w2.delivered == {} + SetOf([1]);
    w := Next(w2, TRIM_ONE);
    assert w.db.stream == map[];
  }

  lemma ClaimThenCrash(w: World)
    requires w.db.stream == map[] && w.db.pel.Keys == {1} && w.consumers == [AT_REST]
    ensures
      var w' := Next(Next(w, CLAIM_BODYLESS), Crash(0));
      && w'.db == w.db.(pel := map[]) && w'.consumers == [AT_REST] && w'.unreported == w.unreported + 1
      && w'.published == w.published && w'.delivered == w.delivered && w'.handled == w.handled
  {
    ClaimOne(w.db);
    assert Ready(w, 0);
    var w1 := Next(w, CLAIM_BODYLESS);
    assert w1.consumers == [Consumer(Free, [], [1])];
  }

  lemma ReadOne(db: Db)
    requires db.stream == map[1 := map[]] && db.lastDelivered == 0 && db.pel == map[]
    ensures var batch := ReadNew(db, "c", 1);
      && batch.entries == [Entry(1, map[])] && batch.db.pel.Keys == {1} && batch.db.lastDelivered == 1
      && batch.db.stream == db.stream && batch.db.dlq == db.dlq && batch.db.lost == db.lost && batch.db.lastId == db.lastId
    ensures Ids([Entry(1, map[])]) == [1]
  {
    assert From(db.stream.Keys, 1) == {1};
    var next := HandedOut(db, "c", 1);
    assert ReadNew(next, "c", 0) == Batch(next, []);
  }

  lemma ClaimOne(db: Db)
    requires db.stream == map[] && db.pel.Keys == {1}
    ensures var page := AutoClaim(db, "c", 0, 0, 1);
      && page.deleted == [1] && page.claimed == [] && page.db == db.(pel := map[])
  {
    assert From(db.pel.Keys, 0) == {1};
    var db' := Dropped(db, 1);
    assert db'.pel == map[];
    assert From(db'.pel.Keys, 2) == {};
    assert Scan(db', "c", 0, 2, 0, 9) == Page(db', 0, [], []);
  }

  /** Before the group reads it, a published entry waits in the stream, unless a
      trim outran the readers; of the three exactly one holds. So an entry is
      lost unread if and only if it was trimmed unread. */
  lemma PublishedIsReadOrTrimmed(consumers: nat, steps: seq<Step>, id: Id)
    ensures
      var w := Run(Start(consumers), steps);
      id in w.published ==>
        && (id in w.trimmedUnread <==> id !in w.delivered && id !in w.db.stream)
        && (id in w.delivered || id in w.trimmedUnread || (id in w.db.stream && w.db.lastDelivered < id))
        && !(id in w.delivered && id in w.trimmedUnread)
        && (id in w.db.stream && w.db.lastDelivered < id ==> id !in w.delivered && id !in w.trimmedUnread)
  {
    StartInv(consumers);
    RunKeeps(Start(consumers), steps);
  }

  /** That exception is real and silent: the entry is in no pending list, no
      dead-letter stream, and no counter knows of it. */
  lemma UnreadTrimIsSilent()
    ensures
      var w := Run(Start(1), [Publish(1, map[]), TrimStep(2)]);
      && 1 in w.published && 1 !in w.delivered && 1 !in w.db.stream
      && w.db.pel == map[] && w.db.dlq == [] && w.db.lost == 0
  {
    var w1 := Next(Start(1), Publish(1, map[]));
    var w2 := Next(w1, TrimStep(2));
    assert Run(w1, [TrimStep(2)]) == Run(w2, []) by {
      assert [TrimStep(2)][1..] == [];
    }
    assert [Publish(1, map[]), TrimStep(2)][1..] == [TrimStep(2)];
  }

  // --------------------------------------------------- rejecting more than the cap

  const FAILURE := "schema_mismatch"

  /** One message is published, read, found to be poison, copied, acknowledged. */
  function Round(id: Id): seq<Step> {
    [Publish(id, map[]), ReadStep(0, "c", 1, Answered), Take(0), Judge(0, true, FAILURE), CopyStep(0, 1, Answered),
     AckPoison(0, Answered)]
  }

  /** A schema mismatch: the first n messages are all rejected. */
  function Rounds(n: nat): seq<Step> {
    if n == 0 then [] else Rounds(n - 1) + Round(n)
  }

  function Gone(n: nat): nat {
    if n > MAX_LETTERS then n - MAX_LETTERS else 0
  }

  /** After n of them. */
  predicate AllRejected(w: World, n: nat) {
    && Capped(w)
    && w.consumers == [AT_REST] && w.db.pel == map[] && w.db.lost == 0 && w.unreported == 0
    && w.handled == {} && w.dropped == {} && w.trimmedUnread == {}
    && w.db.lastId == n && w.db.lastDelivered == n
    && (forall id :: id in w.db.stream ==> id <= n)
    && (forall id :: 1 <= id <= n ==> id in w.delivered && id in w.published && w.published[id] == map[])
    && |w.letters| == n && w.evicted == Gone(n)
    && forall i :: 0 <= i < n ==> w.letters[i] == DeadLetter(i + 1, FAILURE, map[])
  }

  lemma {:induction false} RunConcat(w: World, a: seq<Step>, b: seq<Step>)
    ensures Run(w, a + b) == Run(Run(w, a), b)
    decreases |a|
  {
    if a == [] {
      assert a + b == b;
    } else {
      assert (a + b)[1..] == a[1..] + b;
      RunConcat(Next(w, a[0]), a[1..], b);
    }
  }

  lemma ReadTheNewest(db: Db, id: Id)
    requires id in db.stream && db.stream[id] == map[] && db.lastDelivered + 1 == id && db.pel == map[]
    requires forall k :: k in db.stream ==> k <= id
    ensures ReadNew(db, "c", 1) == Batch(HandedOut(db, "c", id), [Entry(id, map[])])
    ensures SetOf(Ids([Entry(id, map[])])) == {id}
  {
    assert From(db.stream.Keys, db.lastDelivered + 1) == {id};
    assert Ids([Entry(id, map[])]) == [id];
    assert ReadNew(HandedOut(db, "c", id), "c", 0) == Batch(HandedOut(db, "c", id), []);
  }

  lemma FourSteps(w: World, a: Step, b: Step, c: Step, d: Step)
    ensures Run(w, [a, b, c, d]) == Next(Next(Next(Next(w, a), b), c), d)
  {
    var w1 := Next(w, a);
    var w2 := Next(w1, b);
    var w3 := Next(w2, c);
    RunCons(w, a, [b, c, d]);
    RunCons(w1, b, [c, d]);
    RunCons(w2, c, [d]);
    RunCons(w3, d, []);
  }

  /** The first half of a round: the consumer holds the entry as poison. */
  lemma HalfRound(w: World, n: nat) returns (w': World)
    requires AllRejected(w, n)
    ensures w' == Run(w, Round(n + 1)[..4])
    ensures
      var id, entry := n + 1, Entry(n + 1, map[]);
      w' == w.(db := w.db.(stream := w.db.stream[id := map[]], lastId := id, lastDelivered := id,
                           pel := map[id := Pending("c", w.db.now, 1)]),
               consumers := [Consumer(Rejecting(entry, FAILURE), [], [])],
               published := w.published[id := map[]], delivered := w.delivered + {id})
  {
    var id, entry := n + 1, Entry(n + 1, map[]);
    var w1 := Next(w, Publish(id, map[]));
    ReadTheNewest(w1.db, id);
    assert Ready(w1, 0);
    var w2 := Next(w1, ReadStep(0, "c", 1, Answered));
    assert w2.consumers == [Consumer(Free, [entry], [])];
    var w3 := Next(w2, Take(0));
    assert w3.consumers == [Consumer(Deciding(entry), [], [])];
    w' := Next(w3, Judge(0, true, FAILURE));
    assert w'.db.pel == map[id := Pending("c", w.db.now, 1)];
    FourSteps(w, Publish(id, map[]), ReadStep(0, "c", 1, Answered), Take(0), Judge(0, true, FAILURE));
    assert Round(id)[..4] == [Publish(id, map[]), ReadStep(0, "c", 1, Answered), Take(0), Judge(0, true, FAILURE)];
  }

  /** The second half: it is copied, and then acknowledged. */
  lemma OtherHalf(w: World, id: Id) returns (w': World)
    requires Capped(w) && w.consumers == [Consumer(Rejecting(Entry(id, map[]), FAILURE), [], [])]
    requires w.db.pel.Keys == {id}
    ensures w' == Run(w, Round(id)[4..])
    ensures
      var letter := DeadLetter(id, FAILURE, map[]);
      w' == Lettered(w, letter, 1).(db := Quarantined(w.db, letter, 1).(pel := map[]), consumers := [AT_REST])
    ensures Capped(w')
  {
    var letter := DeadLetter(id, FAILURE, map[]);
    var w5 := Next(w, CopyStep(0, 1, Answered));
    assert w5.consumers == [Consumer(Settling(Entry(id, map[])), [], [])];
    w' := Next(w5, AckPoison(0, Answered));
    assert w'.db.pel == map[] && w'.consumers == [AT_REST];
    assert w.db.dlq + [letter] == w'.letters[w.evicted..];
    assert w'.db.dlq == w'.letters[w'.evicted..];
    RunCons(w, CopyStep(0, 1, Answered), [AckPoison(0, Answered)]);
    RunCons(w5, AckPoison(0, Answered), []);
    assert Round(id)[4..] == [CopyStep(0, 1, Answered), AckPoison(0, Answered)];
  }

  /** One more letter for a capped list, evicting one if that is allowed. */
  lemma OneMoreLetter(w: World, n: nat)
    requires AllRejected(w, n)
    ensures w.evicted + Evictable(|w.db.dlq| + 1, 1) == Gone(n + 1)
  {
  }

  lemma WholeRound(w: World, n: nat) returns (w': World)
    requires AllRejected(w, n)
    ensures w' == Run(w, Round(n + 1)) && Capped(w')
    ensures w'.consumers == [AT_REST] && w'.db.pel == map[] && w'.evicted == Gone(n + 1)
    ensures w'.letters == w.letters + [DeadLetter(n + 1, FAILURE, map[])]
    ensures w'.db.stream == w.db.stream[n + 1 := map[]] && w'.db.lastId == w'.db.lastDelivered == n + 1
    ensures w'.published == w.published[n + 1 := map[]] && w'.delivered == w.delivered + {n + 1}
    ensures w'.db.lost == w.db.lost && w'.unreported == w.unreported && w'.handled == w.handled
    ensures w'.dropped == w.dropped && w'.trimmedUnread == w.trimmedUnread
  {
    var round := Round(n + 1);
    assert round == round[..4] + round[4..];
    RunConcat(w, round[..4], round[4..]);
    var w4 := HalfRound(w, n);
    OneMoreLetter(w, n);
    w' := OtherHalf(w4, n + 1);
  }

  lemma RoundRejects(w: World, n: nat)
    requires AllRejected(w, n)
    ensures AllRejected(Run(w, Round(n + 1)), n + 1)
  {
    var w' := WholeRound(w, n);
  }

  lemma NoRounds()
    ensures AllRejected(Run(Start(1), Rounds(0)), 0)
  {
    assert Start(1).consumers == [AT_REST];
  }

  lemma {:induction false} RoundsReject(n: nat)
    ensures AllRejected(Run(Start(1), Rounds(n)), n)
    decreases n
  {
    if n == 0 {
      NoRounds();
    } else {
      RoundsReject(n - 1);
      OneMoreRound(Start(1), n);
    }
  }

  lemma OneMoreRound(w: World, n: nat)
    requires n > 0 && AllRejected(Run(w, Rounds(n - 1)), n - 1)
    ensures AllRejected(Run(w, Rounds(n)), n)
  {
    RunConcat(w, Rounds(n - 1), Round(n));
    RoundRejects(Run(w, Rounds(n - 1)), n - 1);
  }

  /** Reject more messages than the cap, without any failure, and trim the
      stream: of each but the newest there is no trace left. It is in no pending
      list, no stream and no dead letter, nobody handled it, and no counter
      knows of it. The newest are exactly as many as the cap. */
  lemma EvictedLettersAreSilent(n: nat, id: Id)
    requires 1 <= id <= n
    ensures
      var w := Run(Start(1), Rounds(n) + [TrimStep(n + 1)]);
      && id in w.published && id in w.delivered && w.consumers == [AT_REST]
      && w.db.pel == map[] && w.db.stream == map[] && w.handled == {} && w.dropped == {} && w.db.lost == 0
      && (Holds(w.db.dlq, id, w.published[id]) <==> id + 1000 > n)
  {
    var w0 := Run(Start(1), Rounds(n));
    RoundsReject(n);
    RunConcat(Start(1), Rounds(n), [TrimStep(n + 1)]);
    RunCons(w0, TrimStep(n + 1), []);
    var w := Next(w0, TrimStep(n + 1));
    assert w.db.stream == map[];
    assert IsFor(w.letters[id - 1], id, map[]);
    HeldUnlessEvicted(w, id, map[]);
  }

  // ------------------------------------------------------ what a call changes

  /** A call the server refused leaves the server and the histories as they were. */
  lemma RefusedTouchesNothing(w: World, s: Step)
    requires s.ReadStep? || s.ClaimStep? || s.CopyStep? || s.AckPoison? || s.AckHandled? || s.Report?
    requires s.fate == Refused
    ensures Next(w, s) == w.(consumers := Next(w, s).consumers, unreported := Next(w, s).unreported)
  {
  }

  /** A call whose answer is lost did to the server what an answered one does. */
  lemma LostAnswer(w: World, s: Step, answered: Step)
    requires s.ReadStep? || s.ClaimStep? || s.CopyStep? || s.AckPoison? || s.AckHandled? || s.Report?
    requires s.fate == Unanswered && answered == s.(fate := Answered)
    ensures Next(w, s) == Next(w, answered).(consumers := Next(w, s).consumers, unreported := Next(w, s).unreported)
  {
  }

  /** Left alone, a consumer settles what it was given: the handler's
      acknowledgement takes the entry off the pending list. */
  lemma HandledIsSettled(w: World, c: nat, rest: seq<Entry>, e: Entry, toReport: seq<Id>)
    requires c < |w.consumers| && w.consumers[c] == Consumer(Free, [e] + rest, toReport)
    ensures
      Next(Next(Next(w, Take(c)), Judge(c, false, "")), AckHandled(c, Answered)) ==
        w.(consumers := w.consumers[c := Consumer(Free, rest, toReport)],
           db := w.db.(pel := w.db.pel - {e.id}), handled := w.handled + {e.id})
  {
    assert ([e] + rest)[1..] == rest;
    var taken := Next(w, Take(c));
    assert taken == w.(consumers := w.consumers[c := Consumer(Deciding(e), rest, toReport)]);
    var judged := Next(taken, Judge(c, false, ""));
    assert judged == w.(consumers := w.consumers[c := Consumer(Handling(e), rest, toReport)]);
    assert judged.consumers[c := Consumer(Free, rest, toReport)] == w.consumers[c := Consumer(Free, rest, toReport)];
  }

  /** A handler that fails leaves it there. */
  lemma FailedIsKept(w: World, c: nat, rest: seq<Entry>, e: Entry, toReport: seq<Id>)
    requires c < |w.consumers| && w.consumers[c] == Consumer(Free, [e] + rest, toReport)
    ensures
      Next(Next(Next(w, Take(c)), Judge(c, false, "")), HandlerFails(c)) ==
        w.(consumers := w.consumers[c := Consumer(Free, rest, toReport)])
  {
    assert ([e] + rest)[1..] == rest;
    var taken := Next(w, Take(c));
    assert taken == w.(consumers := w.consumers[c := Consumer(Deciding(e), rest, toReport)]);
    var judged := Next(taken, Judge(c, false, ""));
    assert judged == w.(consumers := w.consumers[c := Consumer(Handling(e), rest, toReport)]);
    assert judged.consumers[c := Consumer(Free, rest, toReport)] == w.consumers[c := Consumer(Free, rest, toReport)];
  }

  /** A page's body-less ids are reported after its entries were worked off, one
      count for each. */
  lemma {:induction false} ReportedIsCounted(w: World, c: nat, ids: seq<Id>)
    requires c < |w.consumers| && w.consumers[c] == Consumer(Free, [], ids)
    ensures
      Run(w, seq(|ids|, i => Report(c, Answered))) ==
        w.(consumers := w.consumers[c := AT_REST], db := w.db.(lost := w.db.lost + |ids|))
    decreases |ids|
  {
    var reports := seq(|ids|, i => Report(c, Answered));
    if ids == [] {
      assert w.consumers[c := AT_REST] == w.consumers;
    } else {
      assert reports[1..] == seq(|ids[1..]|, i => Report(c, Answered));
      var next := Next(w, Report(c, Answered));
      var me := Consumer(Free, [], ids[1..]);
      assert next == w.(consumers := w.consumers[c := me], db := w.db.(lost := w.db.lost + 1));
      ReportedIsCounted(next, c, ids[1..]);
      assert next.consumers[c := AT_REST] == w.consumers[c := AT_REST];
    }
  }

  lemma ReportedAfterWork(w: World, c: nat, fate: Fate)
    requires c < |w.consumers| && (!w.consumers[c].task.Free? || w.consumers[c].inbox != [])
    ensures Next(w, Report(c, fate)) == w
  {
  }

  /** No record of a hand-out is from the future. */
  ghost predicate Past(db: Db) {
    forall id :: id in db.pel ==> db.pel[id].deliveredAt <= db.now
  }

  lemma ClaimKeepsPast(db: Db, name: string, minIdle: nat, cursor: Id, count: nat)
    requires Valid(db) && Past(db)
    ensures Past(AutoClaim(db, name, minIdle, cursor, count).db)
  {
    var page := AutoClaim(db, name, minIdle, cursor, count);
    ScanFrame(db, name, minIdle, cursor, count, SCAN_FACTOR * count);
    forall id | id in page.db.pel ensures page.db.pel[id].deliveredAt <= page.db.now {
      ScanPel(db, name, minIdle, cursor, count, SCAN_FACTOR * count, id);
    }
  }

  lemma StepKeepsPast(w: World, s: Step)
    requires Valid(w.db) && Past(w.db)
    ensures Past(Next(w, s).db)
  {
    if s.ReadStep? {
      ReadNewFacts(w.db, s.name, s.count);
    } else if s.ClaimStep? {
      ClaimKeepsPast(w.db, s.name, s.minIdle, s.cursor, s.count);
    }
  }

  lemma {:induction false} RunKeepsPast(w: World, steps: seq<Step>)
    requires Inv(w) && Past(w.db)
    ensures Past(Run(w, steps).db)
    decreases |steps|
  {
    if steps != [] {
      StepKeeps(w, steps[0]);
      StepKeepsPast(w, steps[0]);
      RunKeepsPast(Next(w, steps[0]), steps[1..]);
    }
  }

  /** What is pending is not stuck: in every run, an entry that still has its
      body goes to whichever consumer claims from it on once nobody has touched
      it for the idle time, whoever held it before and whether that one is
      alive. */
  lemma PendingIsTakenOver(
      consumers: nat, steps: seq<Step>, c: nat, name: string, ms: nat, minIdle: nat, count: nat, id: Id)
    requires
      var w := Run(Start(consumers), steps);
      id in w.db.pel && id in w.db.stream && Ready(w, c)
    requires minIdle <= ms && count > 0
    ensures
      var w := Run(Start(consumers), steps);
      var w' := Next(Next(w, Pass(ms)), ClaimStep(c, name, minIdle, id, count, Answered));
      && c < |w'.consumers| && id in Ids(w'.consumers[c].inbox)
      && id in w'.db.pel && w'.db.pel[id] == Pending(name, w.db.now + ms, w.db.pel[id].deliveries + 1)
  {
    RunIsPast(consumers, steps);
    WaitAndClaim(Run(Start(consumers), steps), c, name, ms, minIdle, count, id);
  }

  lemma RunIsPast(consumers: nat, steps: seq<Step>)
    ensures Valid(Run(Start(consumers), steps).db) && Past(Run(Start(consumers), steps).db)
  {
    StartInv(consumers);
    RunKeeps(Start(consumers), steps);
    RunKeepsPast(Start(consumers), steps);
  }

  lemma WaitAndClaim(w: World, c: nat, name: string, ms: nat, minIdle: nat, count: nat, id: Id)
    requires Valid(w.db) && Past(w.db) && id in w.db.pel && id in w.db.stream && Ready(w, c)
    requires minIdle <= ms && count > 0
    ensures
      var w' := Next(Next(w, Pass(ms)), ClaimStep(c, name, minIdle, id, count, Answered));
      && c < |w'.consumers| && id in Ids(w'.consumers[c].inbox)
      && id in w'.db.pel && w'.db.pel[id] == Pending(name, w.db.now + ms, w.db.pel[id].deliveries + 1)
  {
    TakenOver(w.db, name, ms, minIdle, count, id);
    ClaimAnswered(Next(w, Pass(ms)), c, name, minIdle, id, count);
  }

  lemma ClaimAnswered(w: World, c: nat, name: string, minIdle: nat, cursor: Id, count: nat)
    requires Ready(w, c)
    ensures
      var page := AutoClaim(w.db, name, minIdle, cursor, count);
      var w' := Next(w, ClaimStep(c, name, minIdle, cursor, count, Answered));
      w'.db == page.db && c < |w'.consumers| && w'.consumers[c].inbox == page.claimed
  {
  }

  lemma TakenOver(db: Db, name: string, ms: nat, minIdle: nat, count: nat, id: Id)
    requires Valid(db) && Past(db) && id in db.pel && id in db.stream && minIdle <= ms && count > 0
    ensures
      var page := AutoClaim(Ticked(db, ms), name, minIdle, id, count);
      && id in Ids(page.claimed)
      && id in page.db.pel && page.db.pel[id] == Pending(name, db.now + ms, db.pel[id].deliveries + 1)
  {
    var later := Ticked(db, ms);
    var page := AutoClaim(later, name, minIdle, id, count);
    assert id in From(later.pel.Keys, id);
    ScanNext(later, name, minIdle, id, count, SCAN_FACTOR * count);
    assert Covers(id, page.next, id);
    ScanClaims(later, name, minIdle, id, count, SCAN_FACTOR * count, id);
    ScanPel(later, name, minIdle, id, count, SCAN_FACTOR * count, id);
    TimesMember(id, Ids(page.claimed));
  }
}
