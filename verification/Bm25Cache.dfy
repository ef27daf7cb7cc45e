/** The cache of BM25 indexes, refreshed when the row count or the greatest row id of its scope changes. */
module Bm25Cache {
  import opened Bm25
  import opened Wrappers

  /** A chunk row; rows are written once and never updated. */
  datatype Row = Row(id: int, documentId: int, content: string)

  /** Who owns a document; taken as fixed. */
  datatype Owner = Owner(userId: int, kbId: Option<int>)

  type Owners = int -> Owner

  datatype Scope = Scope(userId: Option<int>, documentId: Option<int>, kbId: Option<int>, personalOnly: bool)

  /** The table in id order, and the next id of its sequence. */
  datatype Table = Table(rows: seq<Row>, nextId: int)

  datatype Write =
    | Replace(documentId: int, contents: seq<string>)   // delete the chunks of a document and insert new ones, one commit
    | SkipIds(n: nat)                                   // ids drawn by a transaction that rolled back

  predicate InScope(row: Row, scope: Scope, owners: Owners) {
    var owner := owners(row.documentId);
    && (scope.userId.Some? ==> owner.userId == scope.userId.value)
    && (scope.kbId.Some? ==> owner.kbId == scope.kbId)
    && (scope.personalOnly ==> owner.kbId == None)
    && (scope.documentId.Some? ==> row.documentId == scope.documentId.value)
  }

  function Select(rows: seq<Row>, scope: Scope, owners: Owners): seq<Row> {
    if rows == [] then []
    else
      var row := rows[|rows| - 1];
      Select(rows[..|rows| - 1], scope, owners) + if InScope(row, scope, owners) then [row] else []
  }

  function Without(rows: seq<Row>, documentId: int): seq<Row> {
    if rows == [] then []
    else
      var row := rows[|rows| - 1];
      Without(rows[..|rows| - 1], documentId) + if row.documentId == documentId then [] else [row]
  }

  function NewRows(documentId: int, contents: seq<string>, firstId: int): seq<Row> {
    if contents == [] then []
    else
      var n := |contents| - 1;
      NewRows(documentId, contents[..n], firstId) + [Row(firstId + n, documentId, contents[n])]
  }

  function Apply(t: Table, w: Write): Table {
    match w
    case Replace(d, contents) =>
      Table(Without(t.rows, d) + NewRows(d, contents, t.nextId), t.nextId + |contents|)
    case SkipIds(n) => t.(nextId := t.nextId + n)
  }

  function Exec(t: Table, writes: seq<Write>): Table
    decreases |writes|
  {
    if writes == [] then t else Exec(Apply(t, writes[0]), writes[1..])
  }

  predicate Ascending(rows: seq<Row>) {
    forall i, j :: 0 <= i < j < |rows| ==> rows[i].id < rows[j].id
  }

  predicate ValidTable(t: Table) {
    Ascending(t.rows) && t.nextId >= 1 && forall i :: 0 <= i < |t.rows| ==> 1 <= t.rows[i].id < t.nextId
  }

  /** What `ensure_bm25` compares: the count and the greatest id, zero for no rows. */
  function Fingerprint(rows: seq<Row>): (nat, int) {
    (|rows|, if rows == [] then 0 else rows[|rows| - 1].id)
  }

  // ---- Rows over time ------------------------------------------------------------------------------------------------

  lemma {:induction false} SelectKeeps(rows: seq<Row>, scope: Scope, owners: Owners)
    requires Ascending(rows)
    ensures Ascending(Select(rows, scope, owners))
    ensures forall r :: r in Select(rows, scope, owners) <==> r in rows && InScope(r, scope, owners)
    ensures forall r <- Select(rows, scope, owners) :: r.id <= rows[|rows| - 1].id
  {
    if rows != [] {
      var n := |rows| - 1;
      var rest := Select(rows[..n], scope, owners);
      SelectKeeps(rows[..n], scope, owners);
      forall r <- rest ensures r.id < rows[n].id {
        assert r in rows[..n];
      }
      assert rows == rows[..n] + [rows[n]];
    }
  }

  /** Whose rows an index holds: exactly those of the table whose document belongs to the user, to the knowledge base or to
      none where only personal documents are asked for, and is the document asked for. */
  lemma ScopeSelects(rows: seq<Row>, scope: Scope, owners: Owners, r: Row)
    requires Ascending(rows)
    ensures r in Select(rows, scope, owners) <==>
      && r in rows
      && (scope.userId.None? || owners(r.documentId).userId == scope.userId.value)
      && (scope.kbId.None? || owners(r.documentId).kbId == scope.kbId)
      && (!scope.personalOnly || owners(r.documentId).kbId.None?)
      && (scope.documentId.None? || r.documentId == scope.documentId.value)
  {
    SelectKeeps(rows, scope, owners);
  }

  lemma {:induction false} WithoutKeeps(rows: seq<Row>, documentId: int)
    requires Ascending(rows)
    ensures Ascending(Without(rows, documentId))
    ensures forall r :: r in Without(rows, documentId) <==> r in rows && r.documentId != documentId
  {
    if rows != [] {
      var n := |rows| - 1;
      WithoutKeeps(rows[..n], documentId);
      forall r <- Without(rows[..n], documentId) ensures r.id < rows[n].id {
        assert r in rows[..n];
      }
      assert rows == rows[..n] + [rows[n]];
    }
  }

  lemma {:induction false} NewRowsAre(documentId: int, contents: seq<string>, firstId: int)
    ensures |NewRows(documentId, contents, firstId)| == |contents|
    ensures forall i :: 0 <= i < |contents| ==>
      NewRows(documentId, contents, firstId)[i] == Row(firstId + i, documentId, contents[i])
  {
    if contents != [] {
      NewRowsAre(documentId, contents[..|contents| - 1], firstId);
    }
  }

  /** A write keeps the table ordered, and brings in no row with an old id. */
  lemma ApplyKeeps(t: Table, w: Write)
    requires ValidTable(t)
    ensures ValidTable(Apply(t, w)) && Apply(t, w).nextId >= t.nextId
    ensures forall r <- Apply(t, w).rows :: r.id < t.nextId ==> r in t.rows
  {
    if w.Replace? {
      WithoutKeeps(t.rows, w.documentId);
      NewRowsAre(w.documentId, w.contents, t.nextId);
      var kept := Without(t.rows, w.documentId);
      forall i | 0 <= i < |kept| ensures 1 <= kept[i].id < t.nextId {
        assert kept[i] in t.rows;
      }
    }
  }

  lemma {:induction false} ExecKeeps(t: Table, writes: seq<Write>)
    requires ValidTable(t)
    ensures ValidTable(Exec(t, writes)) && Exec(t, writes).nextId >= t.nextId
    ensures forall r <- Exec(t, writes).rows :: r.id < t.nextId ==> r in t.rows
    decreases |writes|
  {
    if writes != [] {
      ApplyKeeps(t, writes[0]);
      ExecKeeps(Apply(t, writes[0]), writes[1..]);
    }
  }

  /** The `k`-th of `a` stands at `k` or later in `b`. */
  lemma {:induction false} Position(a: seq<Row>, b: seq<Row>, k: nat)
    requires Ascending(a) && Ascending(b) && k < |a| && forall r <- a :: r in b
    ensures exists j :: k <= j < |b| && b[j] == a[k]
  {
    assert a[k] in b;
    var j :| 0 <= j < |b| && b[j] == a[k];
    if k > 0 {
      Position(a, b, k - 1);
      var i :| k - 1 <= i < |b| && b[i] == a[k - 1];
      assert a[k - 1].id < a[k].id;
    }
  }

  /** The last rows agree. */
  lemma LastBelongs(a: seq<Row>, b: seq<Row>)
    requires Ascending(a) && Ascending(b) && |a| == |b| > 0 && forall r <- a :: r in b
    ensures a[|a| - 1] == b[|b| - 1]
  {
    var n := |a| - 1;
    Position(a, b, n);
  }

  /** Rows in id order are determined by their set. */
  lemma {:induction false} SubsetOfSameLength(a: seq<Row>, b: seq<Row>)
    requires Ascending(a) && Ascending(b) && |a| == |b| && forall r <- a :: r in b
    ensures a == b
  {
    if a != [] {
      var n := |a| - 1;
      var x := b[n];
      LastBelongs(a, b);
      forall r <- a[..n] ensures r in b[..n] {
        assert r in a && r.id < a[n].id;
        var j :| 0 <= j <= n && b[j] == r;
        assert j != n;
      }
      SubsetOfSameLength(a[..n], b[..n]);
    }
  }

  /** No row has become visible at or below the greatest id of `past`. */
  ghost predicate NothingLate(past: seq<Row>, now: seq<Row>) {
    forall r <- now :: r.id <= Fingerprint(past).1 ==> r in past
  }

  lemma BelowLast(rows: seq<Row>, r: Row)
    requires Ascending(rows) && r in rows
    ensures r.id <= Fingerprint(rows).1
  {
    var i :| 0 <= i < |rows| && rows[i] == r;
  }

  /** What the fingerprint tells: of two tables of rows with the same count and greatest id, the rows are the same exactly
      when no row at or below that id has become visible since. */
  lemma FingerprintSoundIff(past: seq<Row>, now: seq<Row>)
    requires Ascending(past) && Ascending(now) && Fingerprint(past) == Fingerprint(now)
    ensures past == now <==> NothingLate(past, now)
  {
    if NothingLate(past, now) {
      forall r <- now ensures r in past {
        BelowLast(now, r);
      }
      SubsetOfSameLength(now, past);
    }
  }

  lemma GreatestBelowNext(t: Table, rows: seq<Row>)
    requires ValidTable(t) && forall r <- rows :: r in t.rows
    ensures Fingerprint(rows).1 < t.nextId
  {
    if rows != [] {
      assert rows[|rows| - 1] in rows;
    }
  }

  /** After any deletes, and inserts with fresh ids, nothing is late in any scope. */
  lemma WritesAreNeverLate(t: Table, writes: seq<Write>, scope: Scope, owners: Owners)
    requires ValidTable(t)
    ensures NothingLate(Select(t.rows, scope, owners), Select(Exec(t, writes).rows, scope, owners))
  {
    ExecKeeps(t, writes);
    var u := Exec(t, writes);
    SelectKeeps(u.rows, scope, owners);
    SelectKeeps(t.rows, scope, owners);
    var past, now := Select(t.rows, scope, owners), Select(u.rows, scope, owners);
    GreatestBelowNext(t, past);
    forall r <- now | r.id <= Fingerprint(past).1 ensures r in past {
      assert r in u.rows;
    }
  }

  /** So then equal fingerprints mean equal rows. */
  lemma EqualFingerprintsEqualRows(t: Table, writes: seq<Write>, scope: Scope, owners: Owners)
    requires ValidTable(t)
    requires Fingerprint(Select(t.rows, scope, owners)) == Fingerprint(Select(Exec(t, writes).rows, scope, owners))
    ensures Select(t.rows, scope, owners) == Select(Exec(t, writes).rows, scope, owners)
  {
    WritesAreNeverLate(t, writes, scope, owners);
    ExecKeeps(t, writes);
    SelectKeeps(t.rows, scope, owners);
    SelectKeeps(Exec(t, writes).rows, scope, owners);
    FingerprintSoundIff(Select(t.rows, scope, owners), Select(Exec(t, writes).rows, scope, owners));
  }

  /** A transaction commits a row whose id it drew before others that are already visible. */
  function CommitLate(rows: seq<Row>, row: Row): seq<Row> {
    if rows == [] || rows[|rows| - 1].id < row.id then rows + [row]
    else CommitLate(rows[..|rows| - 1], row) + [rows[|rows| - 1]]
  }

  const EVERYTHING := Scope(None, None, None, false)

  lemma LateRows(rows: seq<Row>, b: Row)
    requires |rows| == 2 && rows[0].id < b.id < rows[1].id
    requires rows[0].documentId != b.documentId && rows[0].documentId != rows[1].documentId
    ensures Without(CommitLate(rows, b), rows[0].documentId) == [b, rows[1]]
  {
    var front := CommitLate(rows[..1], b);
    assert front == [rows[0], b] && front[..1] == [rows[0]];
    assert Without(front[..1], rows[0].documentId) == [];
    assert Without(front, rows[0].documentId) == [] + [b];
    var late := CommitLate(rows, b);
    assert late == front + [rows[1]] && late[..2] == front;
  }

  lemma LateTable(t: Table, b: Row)
    requires |t.rows| == 2 && t.rows[0].id < b.id < t.rows[1].id
    requires t.rows[0].documentId != b.documentId && t.rows[0].documentId != t.rows[1].documentId
    ensures Apply(t.(rows := CommitLate(t.rows, b)), Replace(t.rows[0].documentId, [])) == Table([b, t.rows[1]], t.nextId)
  {
    LateRows(t.rows, b);
    assert [b, t.rows[1]] + [] == [b, t.rows[1]];
  }

  lemma {:induction false} SelectAll(rows: seq<Row>, owners: Owners)
    ensures Select(rows, EVERYTHING, owners) == rows
  {
    if rows != [] {
      SelectAll(rows[..|rows| - 1], owners);
    }
  }

  lemma SameFingerprint(t: Table, u: Table, b: Row, owners: Owners)
    requires ValidTable(t) && |t.rows| == 2 && t.rows[0].id < b.id < t.rows[1].id
    requires u.rows == [b, t.rows[1]] && u.nextId == t.nextId
    ensures ValidTable(u)
    ensures Fingerprint(Select(t.rows, EVERYTHING, owners)) == Fingerprint(Select(u.rows, EVERYTHING, owners))
    ensures Select(t.rows, EVERYTHING, owners) != Select(u.rows, EVERYTHING, owners)
  {
    SelectAll(t.rows, owners);
    SelectAll(u.rows, owners);
    assert u.rows[0] != t.rows[0];
  }

  /** An instance where something is late: when the row `b` is committed after one with a greater id, and the
      document of an older row is deleted, the fingerprint is the old one and the rows are not. */
  lemma LateCommitGoesUnseen(t: Table, b: Row, owners: Owners)
    requires ValidTable(t) && |t.rows| == 2 && t.rows[0].id < b.id < t.rows[1].id
    requires t.rows[0].documentId != b.documentId && t.rows[0].documentId != t.rows[1].documentId
    ensures var u := Apply(t.(rows := CommitLate(t.rows, b)), Replace(t.rows[0].documentId, []));
      && ValidTable(u)
      && Fingerprint(Select(t.rows, EVERYTHING, owners)) == Fingerprint(Select(u.rows, EVERYTHING, owners))
      && Select(t.rows, EVERYTHING, owners) != Select(u.rows, EVERYTHING, owners)
  {
    LateTable(t, b);
    SameFingerprint(t, Table([b, t.rows[1]], t.nextId), b, owners);
  }

  // ---- The cache -----------------------------------------------------------------------------------------------------

  function Documents(rows: seq<Row>): seq<Document> {
    if rows == [] then []
    else Documents(rows[..|rows| - 1]) + [Document(rows[|rows| - 1].id, rows[|rows| - 1].content)]
  }

  /** `later` is what `earlier` became by some writes. */
  ghost predicate Follows(earlier: Table, later: Table) {
    exists writes :: Exec(earlier, writes) == later
  }

  lemma {:induction false} ExecSnoc(t: Table, writes: seq<Write>, w: Write)
    ensures Exec(t, writes + [w]) == Apply(Exec(t, writes), w)
    decreases |writes|
  {
    if writes == [] {
      assert writes + [w] == [w] && [w][1..] == [];
    } else {
      assert (writes + [w])[1..] == writes[1..] + [w];
      ExecSnoc(Apply(t, writes[0]), writes[1..], w);
    }
  }

  /** A table follows itself, and goes on following under every further write, so what `EnsureBm25` asks of the table
      always holds of the current one. */
  lemma FollowsOn(earlier: Table, later: Table, w: Write)
    ensures Follows(earlier, earlier)
    ensures Follows(earlier, later) ==> Follows(earlier, Apply(later, w))
  {
    assert Exec(earlier, []) == earlier;
    if Follows(earlier, later) {
      var writes :| Exec(earlier, writes) == later;
      ExecSnoc(earlier, writes, w);
    }
  }

  class Embedder {
    const tokenize: Tokenizer
    const owners: Owners
    var scorers: map<Scope, BM25Scorer>
    var fingerprints: map<Scope, (nat, int)>
    ghost var builtFrom: map<Scope, Table>   // the table each index was built from

    constructor (tokenize: Tokenizer, owners: Owners)
      ensures this.tokenize == tokenize && this.owners == owners && scorers == map[] && builtFrom == map[] && Valid()
    {
      this.tokenize, this.owners, scorers, fingerprints, builtFrom := tokenize, owners, map[], map[], map[];
    }

    /** The index of a scope is exact for the rows it was built from. */
    ghost predicate Indexes(scorer: BM25Scorer, rows: seq<Row>)
      reads this, scorer
    {
      scorer.Exact() && scorer.indexed && scorer.tokenize == tokenize && scorer.docs == Documents(rows)
    }

    ghost predicate Valid()
      reads this, scorers.Values
    {
      && scorers.Keys == fingerprints.Keys == builtFrom.Keys
      && forall k :: k in scorers ==> EntryOf(scorers[k], fingerprints[k], builtFrom[k], k)
    }

    ghost predicate EntryOf(scorer: BM25Scorer, fingerprint: (nat, int), table: Table, scope: Scope)
      reads this, scorer
    {
      var rows := Select(table.rows, scope, owners);
      ValidTable(table) && fingerprint == Fingerprint(rows) && Indexes(scorer, rows)
    }

    method MakeScorer(rows: seq<Row>) returns (scorer: BM25Scorer)
      ensures fresh(scorer) && Indexes(scorer, rows)
    {
      scorer := new BM25Scorer(tokenize);
      scorer.Index(Documents(rows));
    }

    method BuildBm25(table: Table, scope: Scope) returns (count: nat)
      requires Valid() && ValidTable(table)
      modifies this`scorers, this`fingerprints, this`builtFrom
      ensures Valid() && scope in scorers && fresh(scorers[scope])
      ensures Indexes(scorers[scope], Select(table.rows, scope, owners))
      ensures scope in builtFrom && builtFrom[scope] == table && count == |Select(table.rows, scope, owners)|
    {
      var rows := Select(table.rows, scope, owners);
      var scorer := MakeScorer(rows);
      assert Valid();
      scorers := scorers[scope := scorer];
      fingerprints := fingerprints[scope := Fingerprint(rows)];
      builtFrom := builtFrom[scope := table];
      assert EntryOf(scorer, Fingerprint(rows), table, scope);
      return |rows|;
    }

    /** Whatever the table has become since the index was built: afterwards the index is that of the current rows if and
        only if it was rebuilt or no row was late. It is rebuilt only when the fingerprint differs. */
    method EnsureBm25(table: Table, scope: Scope) returns (count: nat)
      requires Valid() && ValidTable(table)
      modifies this`scorers, this`fingerprints, this`builtFrom
      ensures Valid() && scope in scorers && count == |Select(table.rows, scope, owners)|
      ensures Indexes(scorers[scope], Select(builtFrom[scope].rows, scope, owners))
      ensures var rows := Select(table.rows, scope, owners);
        var hit := scope in old(scorers) && Fingerprint(Select(old(builtFrom)[scope].rows, scope, owners)) == Fingerprint(rows);
        && (hit ==> scorers == old(scorers) && builtFrom == old(builtFrom))
        && (Select(builtFrom[scope].rows, scope, owners) == rows
            <==> !hit || NothingLate(Select(old(builtFrom)[scope].rows, scope, owners), rows))
    {
      var rows := Select(table.rows, scope, owners);
      SelectKeeps(table.rows, scope, owners);
      var fingerprint := Fingerprint(rows);
      if scope !in scorers || fingerprints[scope] != fingerprint {
        count := BuildBm25(table, scope);
      } else {
        SelectKeeps(builtFrom[scope].rows, scope, owners);
        FingerprintSoundIff(Select(builtFrom[scope].rows, scope, owners), rows);
        count := fingerprint.0;
      }
    }

    /** With ids that become visible in order the index is always that of the current rows. */
    method EnsureFresh(table: Table, scope: Scope) returns (count: nat)
      requires Valid() && ValidTable(table)
      requires scope in builtFrom ==> Follows(builtFrom[scope], table)
      modifies this`scorers, this`fingerprints, this`builtFrom
      ensures Valid() && scope in scorers && Indexes(scorers[scope], Select(table.rows, scope, owners))
    {
      if scope in builtFrom {
        ghost var writes :| Exec(builtFrom[scope], writes) == table;
        WritesAreNeverLate(builtFrom[scope], writes, scope, owners);
      }
      count := EnsureBm25(table, scope);
    }
  }
}
