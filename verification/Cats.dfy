/**
  Giving a track its cat: select, else insert, and on losing a race select again.

  `CatTable` is what the database guarantees; `CatRepository` is the code of one writer, with others free
  to act between its calls; `CatProtocol` is a machine of its own, of any number of writers, their steps
  interleaved in any way and any call free to fail.
*/
module CatTable {

  /** camera and track */
  type Key = (string, int)

  datatype Row = Row(id: nat, key: Key)

  /** Both the primary key and the pair (camera, track) are unique. */
  ghost predicate Unique(rows: seq<Row>) {
    forall i, j | 0 <= i < j < |rows| :: rows[i].key != rows[j].key && rows[i].id != rows[j].id
  }

  predicate HasKey(rows: seq<Row>, key: Key) {
    exists i | 0 <= i < |rows| :: rows[i].key == key
  }

  predicate HasId(rows: seq<Row>, id: nat) {
    exists i | 0 <= i < |rows| :: rows[i].id == id
  }

  /** The rows a select on the key returns. */
  function Matching(rows: seq<Row>, key: Key): (r: seq<Row>)
    ensures forall x | x in r :: x in rows && x.key == key
  {
    if rows == [] then []
    else
      var front := Matching(rows[..|rows| - 1], key);
      if rows[|rows| - 1].key == key then front + [rows[|rows| - 1]] else front
  }

  /** A select finds one row where there is one, and never more. */
  lemma {:induction false} SelectFindsOne(rows: seq<Row>, key: Key)
    requires Unique(rows)
    ensures |Matching(rows, key)| == if HasKey(rows, key) then 1 else 0
  {
    if rows != [] {
      var n := |rows| - 1;
      SelectFindsOne(rows[..n], key);
      assert forall j | 0 <= j < n :: rows[..n][j] == rows[j];
      if HasKey(rows[..n], key) {
        var i :| 0 <= i < n && rows[..n][i].key == key;
        assert rows[i].key == key;
      } else if HasKey(rows, key) {
        var i :| 0 <= i < |rows| && rows[i].key == key;
        assert rows[n].key == key;
      }
    }
  }

  /** What the constraints let in. */
  predicate Insertable(rows: seq<Row>, row: Row) {
    !HasKey(rows, row.key) && !HasId(rows, row.id)
  }

  lemma InsertKeepsUnique(rows: seq<Row>, row: Row)
    requires Unique(rows) && Insertable(rows, row)
    ensures Unique(rows + [row])
  {
  }

  lemma KeyStays(before: seq<Row>, after: seq<Row>, key: Key)
    requires before <= after
    ensures HasKey(before, key) ==> HasKey(after, key)
  {
    if HasKey(before, key) {
      var i :| 0 <= i < |before| && before[i].key == key;
      assert after[i].key == key;
    }
  }

  lemma IdStays(before: seq<Row>, after: seq<Row>, id: nat)
    requires before <= after
    ensures HasId(before, id) ==> HasId(after, id)
  {
    if HasId(before, id) {
      var i :| 0 <= i < |before| && before[i].id == id;
      assert after[i].id == id;
    }
  }

  lemma OnlyRow(before: seq<Row>, after: seq<Row>, row: Row)
    requires before <= after && Unique(after) && row in after
    ensures HasKey(before, row.key) ==> row in before
  {
    if HasKey(before, row.key) {
      var i :| 0 <= i < |before| && before[i].key == row.key;
      var j :| 0 <= j < |after| && after[j] == row;
      assert after[i].key == after[j].key;
    }
  }
}

module CatRepository {
  import opened Common
  import opened CatTable

  datatype Result =
    | Returned(id: nat)
    | Reraised            // the integrity error of a lost race with no winner to be found
    | Raised              // any other error

  datatype Commit = Committed | IntegrityError | OtherError

  class Database {
    var rows: seq<Row>

    /** Other writers insert what the constraints let them; nobody deletes. */
    method Others()
      requires Unique(rows)
      modifies this
      ensures Unique(rows) && old(rows) <= rows
    {
      var n: int := *;
      for i := 0 to if n < 0 then 0 else n
        invariant Unique(rows) && old(rows) <= rows
      {
        var row: Row := *;
        if Insertable(rows, row) {
          InsertKeepsUnique(rows, row);
          rows := rows + [row];
        }
      }
    }

    method Select(key: Key) returns (found: seq<Row>)
      requires Unique(rows)
      modifies this
      ensures Unique(rows) && old(rows) <= rows && found == Matching(rows, key)
    {
      Others();
      found := Matching(rows, key);
    }

    /** Commits a new row, or raises: for a broken constraint, or before or after the row is in. */
    method Insert(row: Row, call: Call) returns (outcome: Commit)
      requires Unique(rows)
      modifies this
      ensures Unique(rows) && old(rows) <= rows
      ensures outcome == Committed ==> row in rows && call == Works
      ensures outcome == IntegrityError ==> !Insertable(rows, row) && call != RaisesBefore
      ensures outcome == OtherError ==> call == RaisesBefore || (call == RaisesAfter && row in rows)
    {
      Others();
      if call == RaisesBefore {
        return OtherError;
      }
      if !Insertable(rows, row) {
        return IntegrityError;
      }
      InsertKeepsUnique(rows, row);
      rows := rows + [row];
      outcome := if call == Works then Committed else OtherError;
    }
  }

  /** How each call of one get-or-create goes. */
  datatype Script = Script(select: Call, commit: Call, rollback: Call, reselect: Call, refresh: Call)

  predicate NothingFails(c: Script) {
    c.select == Works && c.commit == Works && c.rollback == Works && c.reselect == Works && c.refresh == Works
  }

  /** How the table answered: with a row, by taking the new one, by refusing it, or by failing to commit. */
  datatype Path = Existing | Created | Refused | Uncommitted

  /** Whether one of the calls made on that path fails. */
  predicate FailsOn(path: Path, c: Script) {
    || c.select != Works || path == Uncommitted
    || (path == Created && c.refresh != Works)
    || (path == Refused && (c.rollback != Works || c.reselect != Works))
  }

  /**
    One writer. Whatever the others do in between, what is returned is the row of the key; the error is
    raised again only if the drawn id was another row's; and anything else is raised exactly if a call fails.
  */
  method GetOrCreate(db: Database, key: Key, drawn: nat, calls: Script) returns (r: Result, ghost path: Path)
    requires Unique(db.rows)
    modifies db
    ensures Unique(db.rows) && old(db.rows) <= db.rows
    ensures r.Returned? ==> Row(r.id, key) in db.rows
    ensures r.Returned? && HasKey(old(db.rows), key) ==> Row(r.id, key) in old(db.rows)
    ensures r.Reraised? ==> !HasKey(db.rows, key) && HasId(db.rows, drawn)
    ensures NothingFails(calls) ==> !r.Raised?
    ensures r.Raised? <==> FailsOn(path, calls)
    ensures r.Reraised? ==> path == Refused
    ensures path == Created ==> calls.commit == Works && Row(drawn, key) in db.rows && (r.Returned? ==> r.id == drawn)
    ensures path == Uncommitted ==> calls.commit != Works
    ensures path == Uncommitted && calls.commit == RaisesAfter ==> Row(drawn, key) in db.rows
    ensures path == Refused ==> calls.commit != RaisesBefore
    ensures calls.select != Works ==> db.rows == old(db.rows)
  {
    path := Existing;
    if calls.select != Works {
      return Raised, Existing;
    }
    var existing := db.Select(key);
    SelectFindsOne(db.rows, key);
    KeyStays(old(db.rows), db.rows, key);
    if existing != [] {
      OnlyRow(old(db.rows), db.rows, existing[0]);
      return Returned(existing[0].id), Existing;
    }
    var outcome := db.Insert(Row(drawn, key), calls.commit);
    match outcome
    case OtherError =>
      return Raised, Uncommitted;
    case IntegrityError =>
      if calls.rollback != Works || calls.reselect != Works {
        return Raised, Refused;
      }
      ghost var atConflict := db.rows;
      existing := db.Select(key);
      SelectFindsOne(db.rows, key);
      KeyStays(atConflict, db.rows, key);
      IdStays(atConflict, db.rows, drawn);
      if existing != [] {
        return Returned(existing[0].id), Refused;
      }
      return Reraised, Refused;
    case Committed =>
      if calls.refresh != Works {
        return Raised, Created;
      }
      return Returned(drawn), Created;
  }
}

module CatProtocol {
  import opened Common
  import opened CatTable

  datatype Pc =
    | Selecting
    | Inserting
    | RollingBack
    | Reselecting
    | Refreshing
    | Returned(id: nat)
    | Reraised
    | Raised

  /** `drawn` is the id that the writer makes up if it comes to insert. */
  datatype Writer = Writer(key: Key, drawn: nat, pc: Pc)

  datatype State = State(rows: seq<Row>, writers: seq<Writer>)

  /** One call of writer w. */
  datatype Step = Step(w: nat, call: Call)

  function NewRow(w: Writer): Row {
    Row(w.drawn, w.key)
  }

  function AfterSelect(rows: seq<Row>, w: Writer): Pc {
    var found := Matching(rows, w.key);
    if |found| > 1 then Raised
    else if |found| == 1 then Returned(found[0].id)
    else if w.pc == Reselecting then Reraised
    else Inserting
  }

  function Next(s: State, e: Step): State
    requires e.w < |s.writers|
  {
    var w := s.writers[e.w];
    var to := (pc: Pc) => State(s.rows, s.writers[e.w := w.(pc := pc)]);
    match w.pc
    case Selecting => if e.call == Works then to(AfterSelect(s.rows, w)) else to(Raised)
    case Inserting =>
      if e.call == RaisesBefore then to(Raised)
      else if Insertable(s.rows, NewRow(w)) then
        to(if e.call == Works then Refreshing else Raised).(rows := s.rows + [NewRow(w)])
      else to(RollingBack)
    case RollingBack => if e.call == Works then to(Reselecting) else to(Raised)
    case Reselecting => if e.call == Works then to(AfterSelect(s.rows, w)) else to(Raised)
    case Refreshing => if e.call == Works then to(Returned(w.drawn)) else to(Raised)
    case _ => s
  }

  /** The steps are those of writers of `s`. */
  predicate StepsOf(s: State, es: seq<Step>) {
    forall e | e in es :: e.w < |s.writers|
  }

  function After(s: State, es: seq<Step>): (t: State)
    requires StepsOf(s, es)
    ensures |t.writers| == |s.writers|
  {
    if es == [] then s else Next(After(s, es[..|es| - 1]), es[|es| - 1])
  }

  /** Writers that have not begun, over any table the constraints allow. */
  ghost predicate Begins(s: State) {
    Unique(s.rows) && forall w | w in s.writers :: w.pc == Selecting
  }

  lemma AfterMore(s: State, es: seq<Step>, e: Step)
    requires StepsOf(s, es) && e.w < |s.writers|
    ensures After(s, es + [e]) == Next(After(s, es), e)
  {
    assert (es + [e])[..|es|] == es;
  }

  lemma {:induction false} AfterConcat(s: State, es: seq<Step>, fs: seq<Step>)
    requires StepsOf(s, es) && StepsOf(s, fs)
    ensures After(s, es + fs) == After(After(s, es), fs)
  {
    if fs == [] {
      assert es + fs == es;
    } else {
      var init, e := fs[..|fs| - 1], fs[|fs| - 1];
      AfterConcat(s, es, init);
      AfterMore(s, es + init, e);
      assert es + fs == es + init + [e];
    }
  }

  // ---------- what every step keeps ----------

  ghost predicate WriterInvariant(rows: seq<Row>, w: Writer) {
    match w.pc
    case Refreshing => NewRow(w) in rows
    case Returned(id) => Row(id, w.key) in rows
    case RollingBack => HasKey(rows, w.key) || HasId(rows, w.drawn)
    case Reselecting => HasKey(rows, w.key) || HasId(rows, w.drawn)
    case Reraised => HasId(rows, w.drawn)
    case _ => true
  }

  ghost predicate Invariant(s: State) {
    Unique(s.rows) && forall i | 0 <= i < |s.writers| :: WriterInvariant(s.rows, s.writers[i])
  }

  lemma RowsGrow(s: State, e: Step)
    requires e.w < |s.writers|
    ensures s.rows <= Next(s, e).rows
  {
  }

  lemma MoreRowsKeep(before: seq<Row>, after: seq<Row>, w: Writer)
    requires before <= after && WriterInvariant(before, w)
    ensures WriterInvariant(after, w)
  {
    KeyStays(before, after, w.key);
    IdStays(before, after, w.drawn);
    forall row | row in before ensures row in after {
      var i :| 0 <= i < |before| && before[i] == row;
      assert after[i] == row;
    }
  }

  lemma StepKeeps(s: State, e: Step)
    requires Invariant(s) && e.w < |s.writers|
    ensures Invariant(Next(s, e))
  {
    var w, t := s.writers[e.w], Next(s, e);
    RowsGrow(s, e);
    SelectFindsOne(s.rows, w.key);
    assert WriterInvariant(s.rows, w);
    forall i | 0 <= i < |t.writers| ensures WriterInvariant(t.rows, t.writers[i]) {
      if i != e.w {
        MoreRowsKeep(s.rows, t.rows, s.writers[i]);
      }
    }
  }

  lemma {:induction false} RunsKeep(s: State, es: seq<Step>)
    requires Begins(s) && StepsOf(s, es)
    ensures Invariant(After(s, es)) && s.rows <= After(s, es).rows
  {
    if es != [] {
      var front := es[..|es| - 1];
      RunsKeep(s, front);
      StepKeeps(After(s, front), es[|es| - 1]);
      RowsGrow(After(s, front), es[|es| - 1]);
    }
  }

  // ---------- agreement ----------

  /** All writers that get an answer for a key get the same one, in any interleaving. */
  lemma Agreement(s: State, es: seq<Step>, i: nat, j: nat)
    requires Begins(s) && StepsOf(s, es)
    requires i < |s.writers| && j < |s.writers|
    ensures var t := After(s, es);
            t.writers[i].pc.Returned? && t.writers[j].pc.Returned? && t.writers[i].key == t.writers[j].key ==>
              t.writers[i].pc == t.writers[j].pc
  {
    RunsKeep(s, es);
    var t := After(s, es);
    assert WriterInvariant(t.rows, t.writers[i]) && WriterInvariant(t.rows, t.writers[j]);
  }

  lemma NeverTwoRows(s: State, es: seq<Step>, key: Key)
    requires Begins(s) && StepsOf(s, es)
    ensures |Matching(After(s, es).rows, key)| <= 1
  {
    RunsKeep(s, es);
    SelectFindsOne(After(s, es).rows, key);
  }

  /** In no interleaving does a select that works raise for finding more than one row. */
  lemma SelectsNeverFindTwo(s: State, es: seq<Step>, e: Step)
    requires Begins(s) && StepsOf(s, es) && e.w < |s.writers| && e.call == Works
    requires After(s, es).writers[e.w].pc in {Selecting, Reselecting}
    ensures After(s, es + [e]).writers[e.w].pc != Raised
  {
    var t := After(s, es);
    NeverTwoRows(s, es, t.writers[e.w].key);
    AfterMore(s, es, e);
  }

  // ---------- every writer comes to an end ----------

  predicate Ended(pc: Pc) {
    pc.Returned? || pc == Reraised || pc == Raised
  }

  /** The most calls a writer has yet to make. */
  function CallsLeft(pc: Pc): nat {
    match pc
    case Selecting => 4
    case Inserting => 3
    case RollingBack => 2
    case Reselecting => 1
    case Refreshing => 1
    case _ => 0
  }

  function CallsOf(es: seq<Step>, i: nat): nat {
    if es == [] then 0 else CallsOf(es[..|es| - 1], i) + if es[|es| - 1].w == i then 1 else 0
  }

  /** Four calls of its own bring any writer to an end, whatever the others do. */
  lemma {:induction false} FourCallsEnd(s: State, es: seq<Step>, i: nat)
    requires StepsOf(s, es) && i < |s.writers|
    ensures CallsLeft(After(s, es).writers[i].pc) + CallsOf(es, i) <= 4 || Ended(After(s, es).writers[i].pc)
    ensures CallsOf(es, i) >= 4 ==> Ended(After(s, es).writers[i].pc)
  {
    if es != [] {
      FourCallsEnd(s, es[..|es| - 1], i);
    }
  }

  /**
    The call that a step makes fails. An insert that the constraints refuse raises their error, whatever else
    would have gone wrong.
  */
  predicate FailsNow(s: State, e: Step)
    requires e.w < |s.writers|
  {
    var w := s.writers[e.w];
    && !Ended(w.pc) && e.call != Works
    && !(w.pc == Inserting && e.call == RaisesAfter && !Insertable(s.rows, NewRow(w)))
  }

  /** One of writer i's calls in the course of `es` fails. */
  predicate FailedIn(s: State, es: seq<Step>, i: nat)
    requires StepsOf(s, es)
  {
    es != [] &&
    (FailedIn(s, es[..|es| - 1], i) ||
     (es[|es| - 1].w == i && FailsNow(After(s, es[..|es| - 1]), es[|es| - 1])))
  }

  lemma OneStep(s: State, e: Step, i: nat)
    requires Invariant(s) && e.w < |s.writers| && i < |s.writers|
    ensures Next(s, e).writers[i].pc == Raised <==> s.writers[i].pc == Raised || (e.w == i && FailsNow(s, e))
  {
    SelectFindsOne(s.rows, s.writers[e.w].key);
  }

  /** A writer ends in an error of another kind exactly if a call of its own fails. */
  lemma {:induction false} RaisedIffFailed(s: State, es: seq<Step>, i: nat)
    requires Begins(s) && StepsOf(s, es) && i < |s.writers|
    ensures After(s, es).writers[i].pc == Raised <==> FailedIn(s, es, i)
  {
    if es == [] {
      assert s.writers[i] in s.writers;
    } else {
      var front, e := es[..|es| - 1], es[|es| - 1];
      RaisedIffFailed(s, front, i);
      RunsKeep(s, front);
      OneStep(After(s, front), e, i);
    }
  }

  /**
    In every interleaving a writer that has made its calls, none of them failing, has been given the row of
    its key; or the error has been raised again, and then it collided from the start.
  */
  lemma EveryWriterIsAnswered(s: State, es: seq<Step>, i: nat)
    requires Begins(s) && StepsOf(s, es) && i < |s.writers|
    requires CallsOf(es, i) >= 4 || Ended(After(s, es).writers[i].pc)
    ensures var t, w := After(s, es), s.writers[i];
            var pc := t.writers[i].pc;
            && (FailedIn(s, es, i) ==> pc == Raised)
            && (!FailedIn(s, es, i) ==> pc == Reraised || pc.Returned?)
            && (pc == Reraised ==> Collides(s, i))
            && (pc.Returned? ==>
                  Row(pc.id, w.key) in t.rows && (HasKey(s.rows, w.key) ==> Row(pc.id, w.key) in s.rows))
  {
    var t := After(s, es);
    FourCallsEnd(s, es, i);
    RaisedIffFailed(s, es, i);
    RunsKeep(s, es);
    RunReaches(s, es);
    assert WriterInvariant(t.rows, t.writers[i]) && Follows(s, t, i);
    if t.writers[i].pc.Returned? {
      OnlyRow(s.rows, t.rows, Row(t.writers[i].pc.id, s.writers[i].key));
    }
  }

  /** And without others: a writer whose row can be inserted gets that row. */
  lemma AloneReturns(s: State, i: nat) returns (es: seq<Step>)
    requires Unique(s.rows) && i < |s.writers| && s.writers[i].pc == Selecting
    requires Insertable(s.rows, NewRow(s.writers[i]))
    ensures StepsOf(s, es) && forall e | e in es :: e == Step(i, Works)
    ensures After(s, es) == State(s.rows + [NewRow(s.writers[i])],
                                  s.writers[i := s.writers[i].(pc := Returned(s.writers[i].drawn))])
  {
    var e := Step(i, Works);
    AloneSelects(s, i);
    AloneInserts(s, i);
    AloneRefreshes(s, i);
    es := [] + [e] + [e] + [e];
    AfterMore(s, [], e);
    AfterMore(s, [] + [e], e);
    AfterMore(s, [] + [e] + [e], e);
  }

  /** Writer i at this point, with its row in the table or not. */
  function AtPoint(s: State, i: nat, inserted: bool, pc: Pc): State
    requires i < |s.writers|
  {
    State(if inserted then s.rows + [NewRow(s.writers[i])] else s.rows, s.writers[i := s.writers[i].(pc := pc)])
  }

  lemma AloneSelects(s: State, i: nat)
    requires Unique(s.rows) && i < |s.writers| && s.writers[i].pc == Selecting
    requires Insertable(s.rows, NewRow(s.writers[i]))
    ensures Next(s, Step(i, Works)) == AtPoint(s, i, false, Inserting)
  {
    SelectFindsOne(s.rows, s.writers[i].key);
  }

  lemma AloneInserts(s: State, i: nat)
    requires i < |s.writers| && Insertable(s.rows, NewRow(s.writers[i]))
    ensures Next(AtPoint(s, i, false, Inserting), Step(i, Works)) == AtPoint(s, i, true, Refreshing)
  {
  }

  lemma AloneRefreshes(s: State, i: nat)
    requires i < |s.writers|
    ensures Next(AtPoint(s, i, true, Refreshing), Step(i, Works))
         == AtPoint(s, i, true, Returned(s.writers[i].drawn))
  {
  }

  /** And one whose key has a row gets that, in one call. */
  lemma AloneFinds(s: State, i: nat, row: Row)
    requires Unique(s.rows) && i < |s.writers| && s.writers[i].pc == Selecting
    requires row in s.rows && row.key == s.writers[i].key
    ensures Next(s, Step(i, Works)) == State(s.rows, s.writers[i := s.writers[i].(pc := Returned(row.id))])
  {
    var k :| 0 <= k < |s.rows| && s.rows[k] == row;
    assert HasKey(s.rows, row.key);
    SelectFindsOne(s.rows, row.key);
    var found := Matching(s.rows, row.key);
    assert found[0] in s.rows && found[0].key == row.key;
    var j :| 0 <= j < |s.rows| && s.rows[j] == found[0];
  }

  // ---------- when the lost race is raised again ----------

  /** A writer ends in a re-raise only if the id it drew was already another row's. */
  lemma ReraiseNeedsCollision(s: State, es: seq<Step>, i: nat)
    requires Begins(s) && StepsOf(s, es) && i < |s.writers|
    ensures var t := After(s, es);
            t.writers[i].pc == Reraised ==> HasId(t.rows, t.writers[i].drawn)
  {
    RunsKeep(s, es);
    var t := After(s, es);
    assert WriterInvariant(t.rows, t.writers[i]);
  }

  /**
    The select after a lost race raises the error again exactly when the key is still without a row, and
    then the drawn id is in use; when the drawn id is not in use, it always finds the winner.
  */
  lemma ReselectOutcome(s: State, e: Step)
    requires Invariant(s) && e.w < |s.writers| && s.writers[e.w].pc == Reselecting && e.call == Works
    ensures var w, t := s.writers[e.w], Next(s, e).writers[e.w];
            && (t.pc == Reraised <==> !HasKey(s.rows, w.key))
            && (t.pc == Reraised ==> HasId(s.rows, w.drawn))
            && (t.pc != Reraised ==> t.pc.Returned? && Row(t.pc.id, w.key) in s.rows)
  {
    SelectFindsOne(s.rows, s.writers[e.w].key);
    assert WriterInvariant(s.rows, s.writers[e.w]);
  }

  /** Writer j can take, for another key, the id that writer i has drawn. */
  predicate Rivals(s: State, i: nat, j: nat)
    requires i < |s.writers| && j < |s.writers|
  {
    var w, v := s.writers[i], s.writers[j];
    v.key != w.key && v.drawn == w.drawn && !HasKey(s.rows, v.key)
  }

  /** Before anything runs: the key of writer i has no row, and its id is in the table or a rival's. */
  predicate Collides(s: State, i: nat)
    requires i < |s.writers|
  {
    var w := s.writers[i];
    !HasKey(s.rows, w.key) && (HasId(s.rows, w.drawn) || exists j | 0 <= j < |s.writers| :: Rivals(s, i, j))
  }

  /** New rows are from writers that found no row for their key. */
  ghost predicate Accounted(s: State, row: Row) {
    row in s.rows
    || exists j | 0 <= j < |s.writers| :: NewRow(s.writers[j]) == row && !HasKey(s.rows, s.writers[j].key)
  }

  /** What holds on the way from `s` to `t`. */
  ghost predicate Reaches(s: State, t: State) {
    && s.rows <= t.rows && |t.writers| == |s.writers|
    && (forall row | row in t.rows :: Accounted(s, row))
    && (forall i | 0 <= i < |s.writers| :: Follows(s, t, i))
  }

  ghost predicate Follows(s: State, t: State, i: nat)
    requires i < |s.writers| == |t.writers|
  {
    var w, v := s.writers[i], t.writers[i];
    && NewRow(v) == NewRow(w)
    && (v.pc in {RollingBack, Reselecting} ==> HasKey(t.rows, w.key) || Collides(s, i))
    && (v.pc == Reraised ==> Collides(s, i))
  }

  /** An insert for a key without a row is refused only to a writer that collides. */
  lemma RefusedCollides(s: State, t: State, i: nat)
    requires Reaches(s, t) && i < |s.writers|
    requires !HasKey(t.rows, s.writers[i].key) && HasId(t.rows, s.writers[i].drawn)
    ensures Collides(s, i)
  {
    var w := s.writers[i];
    KeyStays(s.rows, t.rows, w.key);
    var k :| 0 <= k < |t.rows| && t.rows[k].id == w.drawn;
    assert t.rows[k] in t.rows && t.rows[k].key != w.key;
    assert Accounted(s, t.rows[k]);
    if t.rows[k] !in s.rows {
      var j :| 0 <= j < |s.writers| && NewRow(s.writers[j]) == t.rows[k] && !HasKey(s.rows, s.writers[j].key);
      assert Rivals(s, i, j);
    }
  }

  lemma MoverFollows(s: State, t: State, e: Step)
    requires Reaches(s, t) && Unique(t.rows) && e.w < |s.writers|
    ensures Follows(s, Next(t, e), e.w)
  {
    var w := s.writers[e.w];
    assert Follows(s, t, e.w);
    SelectFindsOne(t.rows, w.key);
    if !HasKey(t.rows, w.key) && HasId(t.rows, w.drawn) {
      RefusedCollides(s, t, e.w);
    }
  }

  lemma OthersFollow(s: State, t: State, e: Step, i: nat)
    requires Reaches(s, t) && e.w < |s.writers| && i < |s.writers| && i != e.w
    ensures Follows(s, Next(t, e), i)
  {
    assert Follows(s, t, i);
    RowsGrow(t, e);
    KeyStays(t.rows, Next(t, e).rows, s.writers[i].key);
  }

  lemma NewRowAccounted(s: State, t: State, e: Step, row: Row)
    requires Reaches(s, t) && e.w < |s.writers| && row in Next(t, e).rows
    ensures Accounted(s, row)
  {
    if row in t.rows {
      assert Accounted(s, row);
    } else {
      var w := s.writers[e.w];
      assert Follows(s, t, e.w);
      assert row == NewRow(w) && !HasKey(t.rows, w.key);
      KeyStays(s.rows, t.rows, w.key);
    }
  }

  lemma {:induction false} RunReaches(s: State, es: seq<Step>)
    requires Begins(s) && StepsOf(s, es)
    ensures Reaches(s, After(s, es))
  {
    if es == [] {
      assert forall i | 0 <= i < |s.writers| :: s.writers[i] in s.writers && Follows(s, s, i);
    } else {
      var front, e := es[..|es| - 1], es[|es| - 1];
      var t := After(s, front);
      RunReaches(s, front);
      RunsKeep(s, front);
      RowsGrow(t, e);
      forall row | row in Next(t, e).rows ensures Accounted(s, row) {
        NewRowAccounted(s, t, e, row);
      }
      forall i | 0 <= i < |s.writers| ensures Follows(s, Next(t, e), i) {
        if i == e.w {
          MoverFollows(s, t, e);
        } else {
          OthersFollow(s, t, e, i);
        }
      }
    }
  }

  /** Some interleaving takes writer i to the re-raise. */
  ghost predicate CanReraise(s: State, i: nat)
    requires i < |s.writers|
  {
    exists es :: RunReraises(s, es, i)
  }

  ghost predicate RunReraises(s: State, es: seq<Step>, i: nat)
    requires i < |s.writers|
  {
    StepsOf(s, es) && After(s, es).writers[i].pc == Reraised
  }

  /** Left to itself, a writer whose id is in the table and whose key is not goes all the way. */
  lemma AloneReraises(s: State, i: nat) returns (es: seq<Step>)
    requires Unique(s.rows) && i < |s.writers| && s.writers[i].pc == Selecting
    requires !HasKey(s.rows, s.writers[i].key) && HasId(s.rows, s.writers[i].drawn)
    ensures RunReraises(s, es, i)
  {
    SelectFindsOne(s.rows, s.writers[i].key);
    es := [];
    assert IsAt(s, After(s, es), i, Selecting);
    es := Onward(s, i, es, Inserting);
    es := Onward(s, i, es, RollingBack);
    es := Onward(s, i, es, Reselecting);
    es := Onward(s, i, es, Reraised);
  }

  /** The writer is at this point, and nothing else has changed. */
  predicate IsAt(s: State, t: State, i: nat, pc: Pc)
    requires i < |s.writers|
  {
    t == State(s.rows, s.writers[i := s.writers[i].(pc := pc)])
  }

  lemma Onward(s: State, i: nat, es: seq<Step>, pc: Pc) returns (more: seq<Step>)
    requires i < |s.writers| && |Matching(s.rows, s.writers[i].key)| == 0 && !Insertable(s.rows, NewRow(s.writers[i]))
    requires StepsOf(s, es) && pc in {Inserting, RollingBack, Reselecting, Reraised}
    requires IsAt(s, After(s, es), i, Before(pc))
    ensures StepsOf(s, more) && IsAt(s, After(s, more), i, pc)
  {
    more := es + [Step(i, Works)];
    AfterMore(s, es, Step(i, Works));
  }

  function Before(pc: Pc): Pc {
    match pc
    case Inserting => Selecting
    case RollingBack => Inserting
    case Reselecting => RollingBack
    case _ => Reselecting
  }

  /** The rival's select and commit. */
  lemma RivalGoesFirst(s: State, i: nat, j: nat) returns (es: seq<Step>)
    requires Begins(s) && i < |s.writers| && j < |s.writers|
    requires Rivals(s, i, j) && !HasId(s.rows, s.writers[j].drawn)
    ensures StepsOf(s, es)
    ensures var t := After(s, es);
            t == State(s.rows + [NewRow(s.writers[j])], s.writers[j := s.writers[j].(pc := Refreshing)])
  {
    var e, v := Step(j, Works), s.writers[j];
    assert v in s.writers;
    SelectFindsOne(s.rows, v.key);
    es := [] + [e] + [e];
    AfterMore(s, [], e);
    AfterMore(s, [] + [e], e);
    assert After(s, [] + [e]) == State(s.rows, s.writers[j := v.(pc := Inserting)]);
  }

  /** A collision is enough. */
  lemma CollisionReraises(s: State, i: nat) returns (es: seq<Step>)
    requires Begins(s) && i < |s.writers| && Collides(s, i)
    ensures RunReraises(s, es, i)
  {
    var w := s.writers[i];
    assert w in s.writers;
    if HasId(s.rows, w.drawn) {
      es := AloneReraises(s, i);
    } else {
      var j :| 0 <= j < |s.writers| && Rivals(s, i, j);
      var first := RivalGoesFirst(s, i, j);
      var t := After(s, first);
      InsertKeepsUnique(s.rows, NewRow(s.writers[j]));
      assert t.rows[|s.rows|].id == w.drawn;
      var second := AloneReraises(t, i);
      AfterConcat(s, first, second);
      es := first + second;
    }
  }

  /**
    Whatever fails and in whatever order the calls go, the error of a lost race is raised again just to
    those writers whose key has no row at first and whose id is in the table or drawn, too, by a writer
    for another key that has no row.
  */
  lemma ReraiseIffCollision(s: State, i: nat)
    requires Begins(s) && i < |s.writers|
    ensures CanReraise(s, i) <==> Collides(s, i)
  {
    if CanReraise(s, i) {
      var es :| RunReraises(s, es, i);
      RunReaches(s, es);
      assert Follows(s, After(s, es), i);
    }
    if Collides(s, i) {
      var es := CollisionReraises(s, i);
    }
  }

  /** The draws of the writers are distinct and none is in the table. */
  ghost predicate FreshDraws(s: State) {
    && (forall i | 0 <= i < |s.writers| :: !HasId(s.rows, s.writers[i].drawn))
    && (forall i, j | 0 <= i < j < |s.writers| :: s.writers[i].drawn != s.writers[j].drawn)
  }

  /** So with fresh draws it is never raised. */
  lemma FreshDrawsNeverReraise(s: State, es: seq<Step>, i: nat)
    requires Begins(s) && StepsOf(s, es) && FreshDraws(s) && i < |s.writers|
    ensures After(s, es).writers[i].pc != Reraised
  {
    ReraiseIffCollision(s, i);
    assert !Collides(s, i);
    assert !RunReraises(s, es, i);
  }
}
