/**
 * run-sql.js: a SQL file is cut into statements at every `;`, and the statements run in order,
 * skipping the errors that mean "already there" and stopping at any other. Reading the file,
 * the connection and the database are outside the model: the database's answer to the i-th
 * statement is a parameter.
 */
module SqlRunner {
  import opened Wrappers
  import opened Text
  import Rows

  /** A piece is kept when it is not empty and does not start with a `--` comment. */
  predicate Kept(piece: string) { piece != [] && !StartsWith(piece, "--") }

  function TrimAll(pieces: seq<string>): (r: seq<string>)
    ensures |r| == |pieces| && forall k :: 0 <= k < |r| ==> r[k] == Trim(pieces[k])
  {
    seq(|pieces|, k requires 0 <= k < |pieces| => Trim(pieces[k]))
  }

  /** `sql.split(';').map(s => s.trim()).filter(s => s.length > 0 && !s.startsWith('--'))`. */
  function Statements(sql: string): (r: seq<string>)
    ensures forall k :: 0 <= k < |r| ==> r[k] != [] && ';' !in r[k] && !StartsWith(r[k], "--")
    ensures forall k :: 0 <= k < |r| ==> !IsSpace(r[k][0]) && !IsSpace(r[k][|r[k]| - 1])
  {
    var trimmed := TrimAll(Split(sql, ';'));
    TrimmedClean(Split(sql, ';'));
    KeptClean(trimmed);
    Rows.Filter(trimmed, Kept)
  }

  /** No `;` and no white space at either end. */
  predicate Clean(x: string) {
    ';' !in x && (x == [] || (!IsSpace(x[0]) && !IsSpace(x[|x| - 1])))
  }

  lemma TrimmedClean(pieces: seq<string>)
    requires forall k :: 0 <= k < |pieces| ==> ';' !in pieces[k]
    ensures forall k :: 0 <= k < |pieces| ==> Clean(TrimAll(pieces)[k])
  {
    forall k | 0 <= k < |pieces| ensures Clean(TrimAll(pieces)[k]) {
      TrimKeepsOut(pieces[k], ';');
    }
  }

  lemma KeptClean(trimmed: seq<string>)
    requires forall k :: 0 <= k < |trimmed| ==> Clean(trimmed[k])
    ensures forall k :: 0 <= k < |Rows.Filter(trimmed, Kept)| ==> Clean(Rows.Filter(trimmed, Kept)[k]) && Kept(Rows.Filter(trimmed, Kept)[k])
  {
    var r := Rows.Filter(trimmed, Kept);
    forall k | 0 <= k < |r| ensures Clean(r[k]) && Kept(r[k]) {
      var j :| 0 <= j < |trimmed| && trimmed[j] == r[k];
    }
  }

  /** Trimming only removes characters. */
  lemma TrimKeepsOut(x: string, c: char)
    requires c !in x
    ensures c !in Trim(x)
  {
    var a := |x| - |TrimStart(x)|;
    forall i | 0 <= i < |Trim(x)| ensures Trim(x)[i] != c {
      assert Trim(x)[i] == x[a + i];
    }
  }

  /** Splitting at a `;` splits the pieces: the pieces of `a;b` are those of `a` followed by those of `b`. */
  lemma {:induction false} SplitAt(a: string, b: string)
    requires ';' !in a
    ensures Split(a + ";" + b, ';') == [a] + Split(b, ';')
  {
    var s := a + ";" + b;
    if a == [] {
      assert s[0] == ';' && s[1..] == b;
    } else {
      SplitAt(a[1..], b);
      assert s[0] == a[0] && a[0] != ';';
      assert s[1..] == a[1..] + ";" + b;
      var rest := Split(s[1..], ';');
      assert rest == [a[1..]] + Split(b, ';');
      assert Split(s, ';') == [[a[0]] + rest[0]] + rest[1..];
      assert [a[0]] + a[1..] == a;
    }
  }

  /**
   * Statements never span a `;`: a file made of a piece and a rest yields the piece's statement,
   * if it is kept, followed by the statements of the rest.
   */
  lemma StatementsOfPieceAndRest(piece: string, rest: string)
    requires ';' !in piece
    ensures Statements(piece + ";" + rest) == (if Kept(Trim(piece)) then [Trim(piece)] else []) + Statements(rest)
  {
    var tail := Split(rest, ';');
    SplitAt(piece, rest);
    TrimAllCons(piece, tail);
    Rows.FilterAppend([Trim(piece)], TrimAll(tail), Kept);
    Rows.FilterOne(Trim(piece), Kept);
    assert Statements(rest) == Rows.Filter(TrimAll(tail), Kept);
    assert Statements(piece + ";" + rest) == Rows.Filter([Trim(piece)] + TrimAll(tail), Kept);
  }

  lemma TrimAllCons(x: string, xs: seq<string>)
    ensures TrimAll([x] + xs) == [Trim(x)] + TrimAll(xs)
  {
    var a, b := TrimAll([x] + xs), [Trim(x)] + TrimAll(xs);
    forall k | 0 <= k < |a| ensures a[k] == b[k] {
      if k > 0 {
        assert ([x] + xs)[k] == xs[k - 1];
      }
    }
  }

  /** A piece that starts with `--` still does after trimming. */
  lemma CommentSurvivesTrim(piece: string)
    requires StartsWith(piece, "--")
    ensures !Kept(Trim(piece))
  {
    assert piece[0] == '-' && piece[1] == '-';
    assert TrimStart(piece) == piece;
    var t := TrimEnd(piece);
    assert Trim(piece) == t;
    assert |t| >= 2;
    assert t[0] == '-' && t[1] == '-';
  }

  /** A piece that begins with a `--` comment is dropped whole, even when SQL follows the comment on a later line. */
  lemma CommentedPieceDropped(piece: string, rest: string)
    requires ';' !in piece && StartsWith(piece, "--")
    ensures Statements(piece + ";" + rest) == Statements(rest)
  {
    StatementsOfPieceAndRest(piece, rest);
    CommentSurvivesTrim(piece);
  }

  // ---------------------------------------------------------------- running

  /** `connection.query` for the prepared-statement commands, `connection.execute` for everything else. */
  datatype Route = ViaQuery | ViaExecute

  function RouteOf(statement: string): (route: Route)
    ensures route.ViaQuery? <==>
              Includes(statement, "PREPARE") || Includes(statement, "EXECUTE") || Includes(statement, "DEALLOCATE")
  {
    if Includes(statement, "PREPARE") || Includes(statement, "EXECUTE") || Includes(statement, "DEALLOCATE")
    then ViaQuery else ViaExecute
  }

  /** The errors that mean the object is already there. */
  predicate Ignorable(message: string) {
    Includes(message, "already exists") || Includes(message, "Duplicate column")
  }

  datatype RunResult = Completed | Aborted(index: nat, error: string)

  /**
   * What the loop does from statement `i` on, where `error(k)` is the database's error message
   * for the k-th statement, if any.
   */
  function RunFrom(statements: seq<string>, error: nat -> Option<string>, i: nat): (r: RunResult)
    requires i <= |statements|
    ensures r.Completed? <==> forall k :: i <= k < |statements| ==> error(k).None? || Ignorable(error(k).value)
    ensures r.Aborted? ==>
              && i <= r.index < |statements|
              && error(r.index) == Some(r.error) && !Ignorable(r.error)
              && forall k :: i <= k < r.index ==> error(k).None? || Ignorable(error(k).value)
    decreases |statements| - i
  {
    if i == |statements| then Completed
    else
      match error(i)
      case Some(e) => if Ignorable(e) then RunFrom(statements, error, i + 1) else Aborted(i, e)
      case None => RunFrom(statements, error, i + 1)
  }

  /** Every statement paired with the route it is sent by, in file order. */
  function Plan(statements: seq<string>): (p: seq<(Route, string)>)
    ensures |p| == |statements| && forall k :: 0 <= k < |p| ==> p[k] == (RouteOf(statements[k]), statements[k])
  {
    seq(|statements|, k requires 0 <= k < |statements| => (RouteOf(statements[k]), statements[k]))
  }

  /**
   * The statement loop: statements are sent in order, each by its route, until one fails with
   * an error that cannot be ignored; no statement after that one is sent.
   */
  method RunStatements(statements: seq<string>, error: nat -> Option<string>) returns (r: RunResult, sent: seq<(Route, string)>)
    ensures r == RunFrom(statements, error, 0)
    ensures |sent| == (if r.Completed? then |statements| else r.index + 1)
    ensures sent == Plan(statements)[..|sent|]
  {
    sent := [];
    var i := 0;
    while i < |statements|
      invariant 0 <= i <= |statements| && sent == Plan(statements)[..i]
      invariant RunFrom(statements, error, i) == RunFrom(statements, error, 0)
    {
      sent := sent + [Plan(statements)[i]];
      assert sent == Plan(statements)[..i + 1];
      var e := error(i);
      if e.Some? && !Ignorable(e.value) {
        assert RunFrom(statements, error, i) == Aborted(i, e.value);
        return Aborted(i, e.value), sent;
      }
      i := i + 1;
    }
    r := Completed;
  }
}
