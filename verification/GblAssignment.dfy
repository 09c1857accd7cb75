/** Assigning bill of lading numbers when a move is saved, inside a transaction that may roll back. */
module GblAssignment {
  import opened Wrappers
  import opened GblNumbers

  /** Counters by office, and the number on each saved shipment. */
  datatype Tables = Tables(trackers: map<string, nat>, numbers: map<Uuid, Option<string>>)

  /** A shipment as the move in memory has it: its own idea of its number, the office found for its source
      (none if the lookup failed), and whether the database will accept the save. */
  datatype Copy = Copy(id: Uuid, gblNumber: Option<string>, source: Option<string>, saveFails: bool)

  datatype Error = NoSource | AlreadyAssigned | CounterExhausted | SaveFailed

  function NextSequence(t: Tables, gbloc: string): nat {
    if gbloc in t.trackers then t.trackers[gbloc] + 1 else 1
  }

  /** Assigning and saving one shipment. */
  function AssignAndSave(t: Tables, c: Copy): Result<Tables, Error> {
    if c.source.None? then Err(NoSource)
    else if c.gblNumber.Some? then Err(AlreadyAssigned)
    else
      var g := c.source.value;
      var n := NextSequence(t, g);
      if n > MAX_SEQUENCE then Err(CounterExhausted)
      else if c.saveFails then Err(SaveFailed)
      else Ok(Tables(t.trackers[g := n], t.numbers[c.id := Some(Format(g, n))]))
  }

  /** The shipments of a move, one after another; the first error stops. */
  function AssignAll(t: Tables, batch: seq<Copy>): Result<Tables, Error>
    decreases |batch|
  {
    if batch == [] then Ok(t)
    else
      var r := AssignAndSave(t, batch[0]);
      if r.Err? then r else AssignAll(r.value, batch[1..])
  }

  /** One transaction: all of the batch or nothing. */
  function Commit(t: Tables, batch: seq<Copy>): Tables {
    var r := AssignAll(t, batch);
    if r.Ok? then r.value else t
  }

  function CommitAll(t: Tables, batches: seq<seq<Copy>>): Tables
    decreases |batches|
  {
    if batches == [] then t else CommitAll(Commit(t, batches[0]), batches[1..])
  }

  /** The offices in use do not clash. */
  ghost predicate Compatible(offices: set<string>) {
    forall g, h :: g in offices && h in offices && g != h ==> !Clash(g, h)
  }

  /** number is one the counters have given out. */
  ghost predicate GivenOut(t: Tables, number: string, g: string, n: nat) {
    g in t.trackers && 1 <= n <= t.trackers[g] && number == Format(g, n)
  }

  predicate HasNumber(t: Tables, id: Uuid) {
    id in t.numbers && t.numbers[id].Some?
  }

  /** No two saved shipments carry the same number. */
  ghost predicate AllDifferent(t: Tables) {
    forall a, b :: HasNumber(t, a) && HasNumber(t, b) && a != b ==> t.numbers[a] != t.numbers[b]
  }

  ghost predicate Inv(t: Tables, offices: set<string>) {
    && t.trackers.Keys <= offices && (forall g :: g in t.trackers ==> t.trackers[g] <= MAX_SEQUENCE)
    && (forall id :: HasNumber(t, id) ==> exists g, n :: GivenOut(t, t.numbers[id].value, g, n))
    && AllDifferent(t)
  }

  ghost predicate Sources(batch: seq<Copy>, offices: set<string>) {
    forall i :: 0 <= i < |batch| ==> batch[i].source.None? || batch[i].source.value in offices
  }

  ghost predicate FromOffices(batches: seq<seq<Copy>>, offices: set<string>) {
    forall i :: 0 <= i < |batches| ==> Sources(batches[i], offices)
  }

  /** A number about to be given out is on no shipment yet. */
  lemma NextIsNew(t: Tables, offices: set<string>, g: string, id: Uuid)
    requires Inv(t, offices) && Compatible(offices) && g in offices && HasNumber(t, id)
    requires NextSequence(t, g) <= MAX_SEQUENCE
    ensures t.numbers[id].value != Format(g, NextSequence(t, g))
  {
    var h, n :| GivenOut(t, t.numbers[id].value, h, n);
    if t.numbers[id].value == Format(g, NextSequence(t, g)) {
      FormatIsInjective(h, n, g, NextSequence(t, g));
    }
  }

  lemma AssignGivesOut(t: Tables, c: Copy, offices: set<string>, id: Uuid)
    requires Inv(t, offices) && AssignAndSave(t, c).Ok? && HasNumber(AssignAndSave(t, c).value, id)
    ensures var t' := AssignAndSave(t, c).value; exists h, n :: GivenOut(t', t'.numbers[id].value, h, n)
  {
    hide Format, AllDifferent;
    var g, t' := c.source.value, AssignAndSave(t, c).value;
    if id == c.id {
      assert GivenOut(t', t'.numbers[id].value, g, NextSequence(t, g));
    } else {
      assert HasNumber(t, id);
      var h, n :| GivenOut(t, t.numbers[id].value, h, n);
      assert GivenOut(t', t'.numbers[id].value, h, n);
    }
  }

  lemma AssignKeepsDifferent(t: Tables, c: Copy, offices: set<string>)
    requires Inv(t, offices) && Compatible(offices) && AssignAndSave(t, c).Ok? && c.source.value in offices
    ensures AllDifferent(AssignAndSave(t, c).value)
  {
    hide Format, Compatible, GivenOut;
    var g, t' := c.source.value, AssignAndSave(t, c).value;
    forall id | HasNumber(t, id) ensures t.numbers[id].value != Format(g, NextSequence(t, g)) {
      NextIsNew(t, offices, g, id);
    }
    assert forall id :: id != c.id ==> (HasNumber(t', id) <==> HasNumber(t, id));
  }

  lemma AssignKeepsInv(t: Tables, c: Copy, offices: set<string>)
    requires Inv(t, offices) && Compatible(offices) && (c.source.Some? ==> c.source.value in offices)
    ensures var r := AssignAndSave(t, c); r.Ok? ==> Inv(r.value, offices)
  {
    hide Format, Compatible, GivenOut, AllDifferent;
    var r := AssignAndSave(t, c);
    if r.Ok? {
      forall id | HasNumber(r.value, id) ensures exists h, n :: GivenOut(r.value, r.value.numbers[id].value, h, n) {
        AssignGivesOut(t, c, offices, id);
      }
      AssignKeepsDifferent(t, c, offices);
    }
  }

  lemma {:induction false} BatchKeepsInv(t: Tables, batch: seq<Copy>, offices: set<string>)
    requires Inv(t, offices) && Compatible(offices) && Sources(batch, offices)
    ensures AssignAll(t, batch).Ok? ==> Inv(AssignAll(t, batch).value, offices)
    decreases |batch|
  {
    if batch != [] {
      AssignKeepsInv(t, batch[0], offices);
      var r := AssignAndSave(t, batch[0]);
      if r.Ok? {
        BatchKeepsInv(r.value, batch[1..], offices);
      }
    }
  }

  /** Over every run of transactions, committed or rolled back, with stale copies or fresh ones, no two saved
      shipments carry the same number. */
  lemma {:induction false} NumbersStayDistinct(t: Tables, batches: seq<seq<Copy>>, offices: set<string>)
    requires Inv(t, offices) && Compatible(offices)
    requires FromOffices(batches, offices)
    ensures Inv(CommitAll(t, batches), offices)
    decreases |batches|
  {
    if batches != [] {
      BatchKeepsInv(t, batches[0], offices);
      NumbersStayDistinct(Commit(t, batches[0]), batches[1..], offices);
    }
  }

  const EMPTY := Tables(map[], map[])

  /** One transaction that numbers one new shipment. */
  function Single(id: Uuid, g: string): seq<Copy> {
    [Copy(id, None, Some(g), false)]
  }

  /** k such transactions for shipments from `start` on. */
  function Fill(g: string, start: nat, k: nat): seq<seq<Copy>>
    decreases k
  {
    if k == 0 then [] else [Single(start, g)] + Fill(g, start + 1, k - 1)
  }

  lemma CommitSingle(t: Tables, id: Uuid, g: string)
    requires NextSequence(t, g) <= MAX_SEQUENCE
    ensures var n := NextSequence(t, g);
      Commit(t, Single(id, g)) == Tables(t.trackers[g := n], t.numbers[id := Some(Format(g, n))])
  {
    var batch := Single(id, g);
    assert batch[1..] == [];
    assert AssignAll(t, batch) == AssignAll(AssignAndSave(t, batch[0]).value, []);
  }

  /** They give out the office's next k numbers. */
  lemma {:induction false} CommitFill(t: Tables, g: string, start: nat, k: nat)
    requires NextSequence(t, g) + k <= MAX_SEQUENCE + 1
    ensures var t' := CommitAll(t, Fill(g, start, k));
      && (forall h :: NextSequence(t', h) == NextSequence(t, h) + if h == g then k else 0)
      && (k > 0 ==> start + k - 1 in t'.numbers
                    && t'.numbers[start + k - 1] == Some(Format(g, NextSequence(t, g) + k - 1)))
      && (forall id: Uuid :: id < start && id in t.numbers ==> id in t'.numbers && t'.numbers[id] == t.numbers[id])
    decreases k
  {
    hide Commit, Format, Single;
    if k > 0 {
      CommitSingle(t, start, g);
      var t1 := Commit(t, Single(start, g));
      assert Fill(g, start, k)[1..] == Fill(g, start + 1, k - 1);
      CommitFill(t1, g, start + 1, k - 1);
    }
  }

  lemma {:induction false} CommitJoin(t: Tables, a: seq<seq<Copy>>, b: seq<seq<Copy>>)
    ensures CommitAll(t, a + b) == CommitAll(CommitAll(t, a), b)
    decreases |a|
  {
    if a == [] {
      assert a + b == b;
    } else {
      assert (a + b)[1..] == a[1..] + b;
      CommitJoin(Commit(t, a[0]), a[1..], b);
    }
  }

  lemma {:induction false} FillSources(g: string, start: nat, k: nat, offices: set<string>)
    requires g in offices
    ensures FromOffices(Fill(g, start, k), offices)
    decreases k
  {
    if k > 0 {
      FillSources(g, start + 1, k - 1, offices);
    }
  }

  /** Offices whose codes clash do give out the same number in time. */
  lemma ClashingOfficesCollide(g: string, h: string, offices: set<string>) returns (batches: seq<seq<Copy>>)
    requires g in offices && h in offices && g != h && Clash(g, h)
    ensures FromOffices(batches, offices) && !AllDifferent(CommitAll(EMPTY, batches))
  {
    hide Clash, Format, Fill, CommitAll, FromOffices, AllDifferent;
    CollisionIffClash(g, h);
    var m: nat, n: nat :| InRange(m) && InRange(n) && Format(g, m) == Format(h, n);
    batches := Fill(g, 0, m) + Fill(h, m, n);
    FillsCollide(g, m, h, n);
    FillSources(g, 0, m, offices);
    FillSources(h, m, n, offices);
    SourcesJoin(Fill(g, 0, m), Fill(h, m, n), offices);
  }

  lemma FillsCollide(g: string, m: nat, h: string, n: nat)
    requires g != h && InRange(m) && InRange(n) && Format(g, m) == Format(h, n)
    ensures !AllDifferent(CommitAll(EMPTY, Fill(g, 0, m) + Fill(h, m, n)))
  {
    hide Format, Fill, CommitAll, AllDifferent;
    CommitJoin(EMPTY, Fill(g, 0, m), Fill(h, m, n));
    CommitFill(EMPTY, g, 0, m);
    var t := CommitAll(EMPTY, Fill(g, 0, m));
    CommitFill(t, h, m, n);
    SameNumber(CommitAll(t, Fill(h, m, n)), m - 1, m + n - 1);
  }

  lemma SameNumber(t: Tables, a: Uuid, b: Uuid)
    requires HasNumber(t, a) && HasNumber(t, b) && a != b && t.numbers[a] == t.numbers[b]
    ensures !AllDifferent(t)
  {
  }

  /** Shipment 7000001 of office KKFA and shipment 1 of office KKFA7 get the same number. */
  lemma ClashExample() returns (batches: seq<seq<Copy>>)
    ensures Format("KKFA", 7_000_001) == Format("KKFA7", 1)
    ensures FromOffices(batches, {"KKFA", "KKFA7"}) && !AllDifferent(CommitAll(EMPTY, batches))
  {
    ShortestExtension("KKFA");
    assert "KKFA" + "7" == "KKFA7";
    batches := ClashingOfficesCollide("KKFA", "KKFA7", {"KKFA", "KKFA7"});
  }

  lemma SourcesJoin(a: seq<seq<Copy>>, b: seq<seq<Copy>>, offices: set<string>)
    requires FromOffices(a, offices) && FromOffices(b, offices)
    ensures FromOffices(a + b, offices)
  {
  }

  /** The numbers given out by a set of offices are different over every run, whatever is rolled back and
      however stale the copies, if and only if no two of the office codes clash. */
  lemma DistinctForeverIff(offices: set<string>)
    ensures Compatible(offices) <==>
      forall batches :: FromOffices(batches, offices) ==> AllDifferent(CommitAll(EMPTY, batches))
  {
    hide CommitAll, Clash, AllDifferent;
    if Compatible(offices) {
      forall batches | FromOffices(batches, offices) ensures AllDifferent(CommitAll(EMPTY, batches)) {
        EmptyIsFine(offices);
        NumbersStayDistinct(EMPTY, batches, offices);
      }
    } else {
      var g, h :| g in offices && h in offices && g != h && Clash(g, h);
      var batches := ClashingOfficesCollide(g, h, offices);
      assert FromOffices(batches, offices);
    }
  }

  lemma EmptyIsFine(offices: set<string>)
    ensures Inv(EMPTY, offices)
  {
  }

  predicate InBatch(batch: seq<Copy>, id: Uuid) {
    exists i :: 0 <= i < |batch| && batch[i].id == id
  }

  function Counter(t: Tables, g: string): nat {
    NextSequence(t, g) - 1
  }

  /** number is one the counters had not given out in t. */
  ghost predicate GivenLater(t: Tables, offices: set<string>, number: string, g: string, n: nat) {
    g in offices && Counter(t, g) < n <= MAX_SEQUENCE && number == Format(g, n)
  }

  lemma LaterIsNew(t: Tables, offices: set<string>, number: string, g: string, n: nat, x: Uuid)
    requires Inv(t, offices) && Compatible(offices) && GivenLater(t, offices, number, g, n) && HasNumber(t, x)
    ensures t.numbers[x].value != number
  {
    var h, m :| GivenOut(t, t.numbers[x].value, h, m);
    if t.numbers[x].value == number {
      FormatIsInjective(h, m, g, n);
    }
  }

  /** Shipments outside a committed batch keep their numbers; those in it end with one given out later. */
  lemma {:induction false} CommittedNumbers(t: Tables, batch: seq<Copy>, offices: set<string>, id: Uuid)
    requires Sources(batch, offices) && AssignAll(t, batch).Ok?
    ensures var t' := AssignAll(t, batch).value;
      && (forall g :: Counter(t, g) <= Counter(t', g))
      && (!InBatch(batch, id) ==>
        (HasNumber(t', id) <==> HasNumber(t, id)) && (HasNumber(t, id) ==> t'.numbers[id] == t.numbers[id]))
      && (InBatch(batch, id) ==> HasNumber(t', id) && exists g, n :: GivenLater(t, offices, t'.numbers[id].value, g, n))
    decreases |batch|
  {
    if batch != [] {
      var c, rest := batch[0], batch[1..];
      var t1 := AssignAndSave(t, c).value;
      CommittedNumbers(t1, rest, offices, id);
      var t' := AssignAll(t1, rest).value;
      InBatchUnfolds(batch, id);
      if InBatch(rest, id) {
        var g, n :| GivenLater(t1, offices, t'.numbers[id].value, g, n);
        assert GivenLater(t, offices, t'.numbers[id].value, g, n);
      } else if c.id == id {
        assert GivenLater(t, offices, t'.numbers[id].value, c.source.value, NextSequence(t, c.source.value));
      }
    }
  }

  lemma InBatchUnfolds(batch: seq<Copy>, id: Uuid)
    requires batch != []
    ensures InBatch(batch, id) <==> batch[0].id == id || InBatch(batch[1..], id)
  {
    if InBatch(batch[1..], id) {
      var i :| 0 <= i < |batch[1..]| && batch[1..][i].id == id;
      assert batch[i + 1].id == id;
    }
    if InBatch(batch, id) && batch[0].id != id {
      var i :| 0 <= i < |batch| && batch[i].id == id;
      assert batch[1..][i - 1].id == id;
    }
  }

  ghost predicate Keeps(t: Tables, t': Tables) {
    forall id :: HasNumber(t, id) ==> id in t'.numbers && t'.numbers[id] == t.numbers[id]
  }

  lemma StaleCopyOverwrites(t: Tables, batch: seq<Copy>, offices: set<string>, i: nat)
    requires Inv(t, offices) && Compatible(offices) && Sources(batch, offices) && AssignAll(t, batch).Ok?
    requires i < |batch| && HasNumber(t, batch[i].id)
    ensures !Keeps(t, AssignAll(t, batch).value)
  {
    var t', id := AssignAll(t, batch).value, batch[i].id;
    assert InBatch(batch, id);
    CommittedNumbers(t, batch, offices, id);
    var g, n :| GivenLater(t, offices, t'.numbers[id].value, g, n);
    LaterIsNew(t, offices, t'.numbers[id].value, g, n, id);
  }

  /** A number once saved is meant never to change. A committed transaction keeps all saved numbers exactly
      when none of its shipments already had one in the table: the code checks only the copy in memory, which
      may be stale. */
  lemma NumbersKeptIff(t: Tables, batch: seq<Copy>, offices: set<string>)
    requires Inv(t, offices) && Compatible(offices) && Sources(batch, offices) && AssignAll(t, batch).Ok?
    ensures Keeps(t, Commit(t, batch)) <==> forall i :: 0 <= i < |batch| ==> !HasNumber(t, batch[i].id)
  {
    if i :| 0 <= i < |batch| && HasNumber(t, batch[i].id) {
      StaleCopyOverwrites(t, batch, offices, i);
    } else {
      hide AssignAll, Inv, Compatible;
      forall id | HasNumber(t, id)
        ensures id in AssignAll(t, batch).value.numbers && AssignAll(t, batch).value.numbers[id] == t.numbers[id]
      {
        CommittedNumbers(t, batch, offices, id);
      }
    }
  }

  /** Saving the same copy twice renumbers its shipment: the copy does not know its number yet. */
  lemma StaleCopyExample(id: Uuid, g: string)
    ensures var t1 := Commit(EMPTY, Single(id, g)); var t2 := Commit(t1, Single(id, g));
      && t1.numbers == map[id := Some(Format(g, 1))] && t2.numbers == map[id := Some(Format(g, 2))]
      && !Keeps(t1, t2)
  {
    hide Commit, Format;
    CommitSingle(EMPTY, id, g);
    var t1 := Commit(EMPTY, Single(id, g));
    CommitSingle(t1, id, g);
    assert HasNumber(t1, id);
    if Format(g, 1) == Format(g, 2) {
      SameOffice(g, 1, 2);
    }
  }

  predicate Clean(c: Copy) {
    c.source.Some? && c.gblNumber.None? && !c.saveFails
  }

  /** Shipments of the batch whose source is office g. */
  function Uses(batch: seq<Copy>, g: string): nat
    decreases |batch|
  {
    if batch == [] then 0 else (if batch[0].source == Some(g) then 1 else 0) + Uses(batch[1..], g)
  }

  ghost predicate CountersSuffice(t: Tables, batch: seq<Copy>) {
    forall g :: Uses(batch, g) > 0 ==> Counter(t, g) + Uses(batch, g) <= MAX_SEQUENCE
  }

  /** A transaction commits exactly when every copy has a source office and no number of its own, every save
      goes through, and no counter runs out. */
  lemma {:induction false} CommitsIff(t: Tables, batch: seq<Copy>)
    ensures AssignAll(t, batch).Ok? <==> (forall i :: 0 <= i < |batch| ==> Clean(batch[i])) && CountersSuffice(t, batch)
    decreases |batch|
  {
    if batch != [] {
      var c, rest, r := batch[0], batch[1..], AssignAndSave(t, batch[0]);
      assert (forall i :: 0 <= i < |batch| ==> Clean(batch[i])) <==>
        Clean(c) && forall i :: 0 <= i < |rest| ==> Clean(rest[i]) by {
        assert batch == [c] + rest;
      }
      if r.Ok? {
        CommitsIff(r.value, rest);
        CountersAfterOne(t, c, batch);
      } else if Clean(c) {
        assert Uses(batch, c.source.value) > 0;
      }
    }
  }

  lemma CountersAfterOne(t: Tables, c: Copy, batch: seq<Copy>)
    requires batch != [] && c == batch[0] && AssignAndSave(t, c).Ok?
    ensures CountersSuffice(t, batch) <==> CountersSuffice(AssignAndSave(t, c).value, batch[1..])
  {
    var t1, rest, g0 := AssignAndSave(t, c).value, batch[1..], c.source.value;
    assert forall g :: Counter(t1, g) + Uses(rest, g) == Counter(t, g) + Uses(batch, g);
    if CountersSuffice(t1, rest) {
      forall g | Uses(batch, g) > 0 ensures Counter(t, g) + Uses(batch, g) <= MAX_SEQUENCE {
        assert Uses(rest, g) > 0 || g == g0;
      }
    }
  }

  /** A connection to the two tables. */
  class Connection {
    var trackers: map<string, nat>
    var numbers: map<Uuid, Option<string>>

    function Snapshot(): Tables
      reads this
    {
      Tables(trackers, numbers)
    }

    constructor At(t: Tables)
      ensures Snapshot() == t
    {
      trackers, numbers := t.trackers, t.numbers;
    }

    /** The upsert: insert 1, or add one to the office's counter, and return it. */
    method NextSequenceNumber(gbloc: string) returns (r: Option<nat>)
      modifies this`trackers
      ensures var n := NextSequence(old(Snapshot()), gbloc); r == if n <= MAX_SEQUENCE then Some(n) else None
      ensures trackers == if r.Some? then old(trackers)[gbloc := r.value] else old(trackers)
    {
      if gbloc !in trackers {
        trackers := trackers[gbloc := 1];
        return Some(1);
      }
      if trackers[gbloc] + 1 > MAX_SEQUENCE {
        return None;
      }
      trackers := trackers[gbloc := trackers[gbloc] + 1];
      return Some(trackers[gbloc]);
    }
  }

  /** A shipment in memory. */
  class GblShipment {
    const id: Uuid
    var sourceGbloc: Option<string>
    var gblNumber: Option<string>

    constructor (id: Uuid, gblNumber: Option<string>)
      ensures this.id == id && this.gblNumber == gblNumber && sourceGbloc.None?
    {
      this.id, this.gblNumber, sourceGbloc := id, gblNumber, None;
    }

    /** Gives the shipment the next number of its office; it has to be saved in the same transaction. */
    method AssignGBLNumber(db: Connection) returns (err: Option<Error>)
      modifies this`gblNumber, db`trackers
      ensures err.Some? ==> gblNumber == old(gblNumber) && db.trackers == old(db.trackers)
      ensures err == Some(NoSource) <==> sourceGbloc.None?
      ensures err == Some(AlreadyAssigned) <==> sourceGbloc.Some? && old(gblNumber).Some?
      ensures err.Some? ==> err.value != SaveFailed
      ensures err == Some(CounterExhausted) <==>
        sourceGbloc.Some? && old(gblNumber).None? && NextSequence(old(db.Snapshot()), sourceGbloc.value) > MAX_SEQUENCE
      ensures err.None? ==> var n := NextSequence(old(db.Snapshot()), sourceGbloc.value);
        gblNumber == Some(Format(sourceGbloc.value, n)) && db.trackers == old(db.trackers)[sourceGbloc.value := n]
    {
      if sourceGbloc.None? {
        return Some(NoSource);
      }
      if gblNumber.Some? {
        return Some(AlreadyAssigned);
      }
      var sequenceNumber := db.NextSequenceNumber(sourceGbloc.value);
      if sequenceNumber.None? {
        return Some(CounterExhausted);
      }
      gblNumber := Some(Format(sourceGbloc.value, sequenceNumber.value));
      return None;
    }
  }

  /** The part of SaveMoveDependencies that numbers a submitted move's shipments. */
  method SaveShipments(db: Connection, shipments: seq<Copy>) returns (err: Option<Error>)
    modifies db
    ensures db.Snapshot() == Commit(old(db.Snapshot()), shipments)
    ensures var r := AssignAll(old(db.Snapshot()), shipments); err == if r.Err? then Some(r.error) else None
  {
    ghost var t0 := db.Snapshot();
    var tx := new Connection.At(db.Snapshot());
    for i := 0 to |shipments|
      invariant db.Snapshot() == t0
      invariant AssignAll(t0, shipments) == AssignAll(tx.Snapshot(), shipments[i..])
    {
      var c := shipments[i];
      assert shipments[i..][0] == c && shipments[i..][1..] == shipments[i + 1..];
      if c.source.None? {
        return Some(NoSource);
      }
      var shipment := new GblShipment(c.id, c.gblNumber);
      shipment.sourceGbloc := c.source;
      var refused := shipment.AssignGBLNumber(tx);
      if refused.Some? {
        return refused;
      }
      if c.saveFails {
        return Some(SaveFailed);
      }
      tx.numbers := tx.numbers[c.id := shipment.gblNumber];
    }
    db.trackers, db.numbers := tx.trackers, tx.numbers;
    return None;
  }
}
