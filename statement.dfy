/**
 * The SQL statement splitter of simple-postgres (`split_statements` and the
 * `Statements` iterator). The iterator keeps the not yet consumed part of
 * the script; each `Next` drops leading white space and scans the rest one
 * character at a time until a `;` outside quotes and comments, or the end.
 *
 * The scan is modelled as the code is written, quirks included: the tag
 * recorded when a `'` or `"` opens a literal is the character AFTER the
 * quote, block and line comment openers are recognised inside literals, and opening a literal
 * on the last character (or before a multi-byte character) panics.
 */
module StatementSplitter {

  import opened Wrappers
  import opened Text

  /** The `Statement` record: the statement's text and its parameter list (always empty). */
  datatype Statement = Statement(statement: string, params: seq<nat>)

  /** The four local variables of the scanning loop. */
  datatype ScanState = ScanState(
    quotes: Option<string>,
    backslashes: nat,
    commentLevel: nat,
    inlineComment: bool)

  const Initial: ScanState := ScanState(None, 0, 0, false)

  /** The outcome of one turn of the scanning loop. */
  datatype StepResult =
    | Break(end: nat)                        // `;` at top level: the statement ends at `end`
    | Advance(next: nat, state: ScanState)   // continue scanning from index `next`
    | Panic                                  // `[..1]` out of range or not on a character boundary

  /** The outcome of scanning to the end of one statement. */
  datatype ScanResult = Ended(end: nat) | Panicked

  /** The result of one call of `next()`. */
  datatype NextResult = Yield(stmt: Statement) | Exhausted | Failed

  /** The backslash parity update at the bottom of the loop. */
  function Backslashes(ch: char, b: nat): nat {
    if ch == '\\' then (b + 1) % 2 else 0
  }

  /** `chars.as_str().starts_with(c)` when the iterator stands at index `p`. */
  predicate NextIs(s: string, p: nat, c: char) {
    p < |s| && s[p] == c
  }

  predicate TopLevel(st: ScanState) {
    st.quotes.None? && st.commentLevel == 0 && !st.inlineComment
  }

  /** The first index at or after `i` that is not alphanumeric (or the end): the inner tag loop. */
  function TagEnd(s: string, i: nat): (j: nat)
    requires i <= |s|
    ensures i <= j <= |s|
    ensures forall k :: i <= k < j ==> IsAlphanumeric(s[k])
    ensures j < |s| ==> !IsAlphanumeric(s[j])
    decreases |s| - i
  {
    if i == |s| || !IsAlphanumeric(s[i]) then i else TagEnd(s, i + 1)
  }

  /** The `$` branch of the loop; the `continue`s leave `backslashes` as it was. */
  function DollarStep(s: string, p: nat, st: ScanState): (r: StepResult)
    requires p < |s|
    ensures r.Advance? && p < r.next <= |s|
  {
    var rest := p + 1;
    match st.quotes
    case Some(q) =>
      if |q| > 0 && q[0] == '$' && IsPrefix(q[1..], s[rest..]) then
        Advance(rest + |q| - 1, st.(quotes := None, backslashes := 0))
      else
        Advance(rest, st.(backslashes := 0))
    case None =>
      if rest < |s| && IsDigit(s[rest]) then Advance(rest, st)
      else if rest < |s| && s[rest] == '$' then Advance(rest, st.(quotes := Some("$$")))
      else if rest < |s| && !IsAlphabetic(s[rest]) then Advance(rest, st)
      else if rest < |s| then
        var j := TagEnd(s, rest + 1);
        if j < |s| && s[j] == '$' then Advance(j + 1, st.(quotes := Some(s[p..j + 1]), backslashes := 0))
        else Advance(rest, st.(backslashes := 0))
      else
        Advance(rest, st.(backslashes := 0))
  }

  /** One turn of the scanning loop with the iterator standing at index `p`. */
  function Step(s: string, p: nat, st: ScanState): (r: StepResult)
    requires p < |s|
    ensures r.Advance? ==> p < r.next <= |s|
    ensures r.Break? <==> s[p] == ';' && TopLevel(st)
    ensures r.Break? ==> r.end == p + 1
    ensures r.Panic? ==> (s[p] == '"' || s[p] == '\'') && st.quotes.None?
  {
    var ch := s[p];
    var rest := p + 1;
    if ch == ';' && TopLevel(st) then
      Break(rest)
    else if !st.inlineComment && ch == '/' && NextIs(s, rest, '*') then
      Advance(rest + 1, st.(commentLevel := st.commentLevel + 1, backslashes := 0))
    else if !st.inlineComment && st.commentLevel > 0 then
      if ch == '*' && NextIs(s, rest, '/') then
        Advance(rest + 1, st.(commentLevel := st.commentLevel - 1, backslashes := 0))
      else
        Advance(rest, st.(backslashes := Backslashes(ch, st.backslashes)))
    else if ch == '-' && NextIs(s, rest, '-') then
      Advance(rest + 1, st.(inlineComment := true, backslashes := 0))
    else if st.inlineComment then
      Advance(rest, st.(inlineComment := !(ch == '\n' || ch == '\r'),
                        backslashes := Backslashes(ch, st.backslashes)))
    else if ch == '"' || ch == '\'' then
      if st.quotes.None? then
        if rest < |s| && IsAscii(s[rest]) then Advance(rest, st.(quotes := Some([s[rest]]), backslashes := 0))
        else Panic
      else if st.quotes == Some([ch]) && st.backslashes == 0 then
        Advance(rest, st.(quotes := None, backslashes := 0))
      else
        Advance(rest, st.(backslashes := 0))
    else if ch == '$' then
      DollarStep(s, p, st)
    else
      Advance(rest, st.(backslashes := Backslashes(ch, st.backslashes)))
  }

  /**
   * The scanning loop from index `p`: where the statement ends, or a panic.
   * A statement either runs to the end of the input or ends just after a `;`.
   */
  function Scan(s: string, p: nat, st: ScanState): (r: ScanResult)
    requires p <= |s|
    ensures r.Ended? ==> p < r.end <= |s| || r.end == p == |s|
    ensures r.Ended? ==> r.end == |s| || s[r.end - 1] == ';'
    decreases |s| - p
  {
    if p == |s| then Ended(|s|)
    else
      match Step(s, p, st)
      case Break(e) => Ended(e)
      case Panic => Panicked
      case Advance(q, st') => Scan(s, q, st')
  }

  /** The texts an exhausted iterator has produced, and whether it stopped by panicking. */
  datatype Splitting = Splitting(statements: seq<string>, panicked: bool)

  /**
   * One call of `next()` on an iterator holding `sql`: what it returns and
   * the text the iterator keeps. The statement and the kept text together
   * are the input without its leading white space.
   */
  function NextOf(sql: string): (res: (NextResult, string))
    ensures res.0.Yield? ==> |res.0.stmt.statement| > 0 && res.0.stmt.statement + res.1 == TrimStart(sql)
    ensures res.0.Yield? ==> !IsWhitespace(res.0.stmt.statement[0])
    ensures res.0.Yield? && res.1 != [] ==> Terminated(res.0.stmt.statement)
    ensures res.0.Exhausted? <==> TrimStart(sql) == []
  {
    var t := TrimStart(sql);
    if t == [] then (Exhausted, t)
    else
      match Scan(t, 0, Initial)
      case Panicked => (Failed, t)
      case Ended(e) =>
        assert t[..e] + t[e..] == t;
        (Yield(Statement(t[..e], [])), t[e..])
  }

  /** A statement text that ends with its terminating `;`. */
  predicate Terminated(x: string) {
    |x| > 0 && x[|x| - 1] == ';'
  }

  /** `split_statements(sql)` iterated to the end, as a value. */
  function Split(sql: string): (r: Splitting)
    decreases |sql|
  {
    match NextOf(sql)
    case (Exhausted, _) => Splitting([], false)
    case (Failed, _) => Splitting([], true)
    case (Yield(stmt), rest) =>
      var more := Split(rest);
      Splitting([stmt.statement] + more.statements, more.panicked)
  }

  /** The statement texts of a list of statements. */
  function Texts(stmts: seq<Statement>): seq<string> {
    seq(|stmts|, i requires 0 <= i < |stmts| => stmts[i].statement)
  }

  /** The `Statements` iterator; its only state is the text not yet consumed. */
  class Statements {
    var sql: string

    /** `split_statements`. */
    constructor (sql: string)
      ensures this.sql == sql
    {
      this.sql := sql;
    }

    /** `Statements::next`. */
    method Next() returns (r: NextResult)
      modifies this
      ensures r == NextOf(old(sql)).0
      ensures sql == NextOf(old(sql)).1
    {
      var text := TrimStart(sql);
      ghost var res := NextOf(sql);
      sql := text;
      if text == [] {
        return Exhausted;
      }
      var end := ScanStatement(text);
      assert res.0 == match end case Panicked => Failed case Ended(e) => Yield(Statement(text[..e], []));
      match end
      case Panicked =>
        r := Failed;
      case Ended(p) =>
        var newSql := text[p..];
        var result := text[..|text| - |newSql|];
        assert result + newSql == text;
        sql := newSql;
        r := Yield(Statement(result, []));
    }
  }

  /** The scanning loop of `Statements::next` over the trimmed, non-empty text. */
  method ScanStatement(text: string) returns (r: ScanResult)
    ensures r == Scan(text, 0, Initial)
  {
    var p: nat := 0;
    var st := Initial;
    while p < |text|
      invariant p <= |text|
      invariant Scan(text, 0, Initial) == Scan(text, p, st)
      decreases |text| - p
    {
      var turn := ScanTurn(text, p, st);
      match turn {
        case Break(e) =>
          return Ended(e);
        case Panic =>
          return Panicked;
        case Advance(q, st') =>
          ScanAdvance(text, p, st, q, st');
          p, st := q, st';
      }
    }
    r := Ended(p);
  }

  /** One turn of the scanning loop, from index `at` in state `st`. */
  method ScanTurn(text: string, at: nat, st: ScanState) returns (r: StepResult)
    requires at < |text|
    ensures r == Step(text, at, st)
  {
    var quotes := st.quotes;
    var commentLevel := st.commentLevel;
    var inlineComment := st.inlineComment;
    var ch := text[at];
    var p := at + 1;
    if ch == ';' && quotes == None && commentLevel == 0 && !inlineComment {
      return Break(p);
    } else if !inlineComment && ch == '/' && NextIs(text, p, '*') {
      commentLevel := commentLevel + 1;
      p := p + 1;
    } else if !inlineComment && commentLevel > 0 {
      if ch == '*' && NextIs(text, p, '/') {
        commentLevel := commentLevel - 1;
        p := p + 1;
      }
    } else if ch == '-' && NextIs(text, p, '-') {
      inlineComment := true;
      p := p + 1;
    } else if inlineComment {
      if ch == '\n' || ch == '\r' {
        inlineComment := false;
      }
    } else if ch == '"' || ch == '\'' {
      if quotes == None {
        if p < |text| && IsAscii(text[p]) {
          quotes := Some([text[p]]);
        } else {
          return Panic;
        }
      } else if quotes == Some([ch]) && st.backslashes == 0 {
        quotes := None;
      }
    } else if ch == '$' {
      assert Step(text, at, st) == DollarStep(text, at, st);
      if quotes.Some? {
        var q := quotes.value;
        if |q| > 0 && q[0] == '$' && IsPrefix(q[1..], text[p..]) {
          p := p + |q| - 1;
          quotes := None;
        }
      } else if p < |text| {
        var tg := text[p];
        if IsDigit(tg) {
          return Advance(p, st);
        } else if tg == '$' {
          return Advance(p, st.(quotes := Some("$$")));
        } else if !IsAlphabetic(tg) {
          return Advance(p, st);
        }
        var found, j := ScanTag(text, p + 1);
        if found {
          quotes := Some(text[p - 1..j + 1]);
          p := j + 1;
        }
      }
    }
    r := Advance(p, ScanState(quotes, Backslashes(ch, st.backslashes), commentLevel, inlineComment));
  }

  /**
   * The inner loop over `nested` after `$` and a letter: it reads
   * alphanumeric characters from index `n` and stops at the first other
   * character, which completes a tag when it is a `$`.
   */
  method ScanTag(text: string, n: nat) returns (found: bool, j: nat)
    requires n <= |text|
    ensures j == TagEnd(text, n)
    ensures found <==> j < |text| && text[j] == '$'
  {
    var k := n;
    while k < |text|
      invariant n <= k <= |text|
      invariant TagEnd(text, k) == TagEnd(text, n)
      decreases |text| - k
    {
      var c := text[k];
      k := k + 1;
      if c == '$' {
        return true, k - 1;
      } else if !IsAlphanumeric(c) {
        return false, k - 1;
      }
    }
    return false, k;
  }

  /** Collecting the iterator, as the tests do: it yields exactly what `Split` describes. */
  method SplitStatements(sql: string) returns (stmts: seq<Statement>, panicked: bool)
    ensures Split(sql) == Splitting(Texts(stmts), panicked)
    ensures forall i :: 0 <= i < |stmts| ==> stmts[i].params == []
  {
    var it := new Statements(sql);
    stmts := [];
    panicked := false;
    ghost var rest := sql;
    assert Texts(stmts) + Split(rest).statements == Split(sql).statements;
    while true
      invariant it.sql == rest
      invariant Split(sql) == Splitting(Texts(stmts) + Split(rest).statements, Split(rest).panicked)
      invariant forall i :: 0 <= i < |stmts| ==> stmts[i].params == []
      decreases |rest|
    {
      var r := it.Next();
      SplitNext(rest, r, it.sql);
      match r
      case Exhausted =>
        assert Texts(stmts) + [] == Texts(stmts);
        return;
      case Failed =>
        assert Texts(stmts) + [] == Texts(stmts);
        panicked := true;
        return;
      case Yield(stmt) =>
        TextsAppend(stmts, stmt, Split(it.sql).statements);
        stmts := stmts + [stmt];
        rest := it.sql;
    }
  }

  lemma TextsAppend(stmts: seq<Statement>, stmt: Statement, more: seq<string>)
    ensures Texts(stmts) + ([stmt.statement] + more) == Texts(stmts + [stmt]) + more
  {
    assert Texts(stmts + [stmt]) == Texts(stmts) + [stmt.statement];
  }

  /** How `Split` continues after one call of `next()`. */
  lemma SplitNext(sql: string, r: NextResult, rest: string)
    requires (r, rest) == NextOf(sql)
    ensures r.Exhausted? ==> Split(sql) == Splitting([], false)
    ensures r.Failed? ==> Split(sql) == Splitting([], true)
    ensures r.Yield? ==> |rest| < |sql| && Split(sql) == Splitting([r.stmt.statement] + Split(rest).statements, Split(rest).panicked)
  {
    match r
    case Exhausted =>
    case Failed =>
    case Yield(stmt) =>
      assert |rest| < |sql|;
  }

  // ---------------------------------------------------------------------
  // Properties of the whole split

  /** No statements, and no panic, exactly when the input is empty or white space. */
  lemma SplitEmptyIff(sql: string)
    ensures Split(sql) == Splitting([], false) <==> forall i :: 0 <= i < |sql| ==> IsWhitespace(sql[i])
  {
    if forall i :: 0 <= i < |sql| ==> IsWhitespace(sql[i]) {
      TrimStartAllWhitespace(sql);
    }
  }

  lemma {:induction false} TrimStartAllWhitespace(s: string)
    requires forall i :: 0 <= i < |s| ==> IsWhitespace(s[i])
    ensures TrimStart(s) == []
    decreases |s|
  {
    if s != [] {
      TrimStartAllWhitespace(s[1..]);
    }
  }

  lemma SplitOfEmpty(sql: string)
    ensures sql == [] ==> Split(sql) == Splitting([], false)
  {
  }

  /**
   * Every statement is non-empty and starts with a character that is not
   * white space; every statement that another statement or a panic follows
   * ends with its terminating `;`.
   */
  predicate WellShaped(r: Splitting) {
    forall i :: 0 <= i < |r.statements| ==>
      && |r.statements[i]| > 0
      && !IsWhitespace(r.statements[i][0])
      && (i < |r.statements| - 1 || r.panicked ==> Terminated(r.statements[i]))
  }

  /** A well-shaped statement put in front of a well-shaped split keeps it well shaped. */
  lemma ShapeCons(stmt: string, more: Splitting)
    requires |stmt| > 0 && !IsWhitespace(stmt[0]) && WellShaped(more)
    requires more.statements != [] || more.panicked ==> Terminated(stmt)
    ensures WellShaped(Splitting([stmt] + more.statements, more.panicked))
  {
    var all := [stmt] + more.statements;
    forall i | 0 <= i < |all|
      ensures |all[i]| > 0 && !IsWhitespace(all[i][0])
      ensures i < |all| - 1 || more.panicked ==> Terminated(all[i])
    {
      if i > 0 {
        assert all[i] == more.statements[i - 1];
      }
    }
  }

  /** The statements of every split are well shaped. */
  lemma {:induction false} SplitStatementShape(sql: string)
    ensures WellShaped(Split(sql))
    decreases |sql|
  {
    var n := NextOf(sql).0;
    var rest := NextOf(sql).1;
    SplitNext(sql, n, rest);
    if n.Yield? {
      SplitStatementShape(rest);
      SplitOfEmpty(rest);
      ShapeCons(n.stmt.statement, Split(rest));
    }
  }

  /**
   * Joining the statements does not give back the input, but putting back the
   * white space dropped before each statement (and at the end) does.
   */
  lemma {:induction false} SplitReassembles(sql: string)
    requires !Split(sql).panicked
    ensures exists gaps :: Reassembles(gaps, Split(sql).statements, sql)
    decreases |sql|
  {
    var n := NextOf(sql).0;
    var rest := NextOf(sql).1;
    SplitNext(sql, n, rest);
    var w := LeadingWhitespace(sql);
    if n.Exhausted? {
      assert Reassembles([w], [], sql);
    } else if n.Yield? {
      SplitReassembles(rest);
      var more := Split(rest).statements;
      var g :| Reassembles(g, more, rest);
      ReassemblesCons(w, n.stmt.statement, rest, g, more);
    }
  }

  // ---------------------------------------------------------------------
  // Properties of one scan

  /** Where `[..1]` panics: a quote that is the last character or precedes a multi-byte character. */
  predicate PanicSite(s: string, k: int) {
    0 <= k < |s| && (s[k] == '"' || s[k] == '\'') && (k + 1 == |s| || !IsAscii(s[k + 1]))
  }

  /**
   * Without a `;` the statement runs to the end of the input; the only way
   * the scan can fail is a quote on a panic site.
   */
  lemma {:induction false} NoSemicolonRunsToEnd(s: string, p: nat, st: ScanState)
    requires p <= |s|
    requires forall k :: p <= k < |s| ==> s[k] != ';'
    ensures Scan(s, p, st) == Ended(|s|) || exists k :: p <= k < |s| && PanicSite(s, k)
    decreases |s| - p
  {
    if p < |s| {
      match Step(s, p, st)
      case Break(_) =>
      case Panic =>
        assert PanicSite(s, p);
      case Advance(q, st') =>
        NoSemicolonRunsToEnd(s, q, st');
    }
  }

  /** The first index at or after `p` that is a line break, or the end. */
  function LineEnd(s: string, p: nat): (k: nat)
    requires p <= |s|
    ensures p <= k <= |s|
    ensures forall i :: p <= i < k ==> s[i] != '\n' && s[i] != '\r'
    ensures k < |s| ==> s[k] == '\n' || s[k] == '\r'
    decreases |s| - p
  {
    if p == |s| || s[p] == '\n' || s[p] == '\r' then p else LineEnd(s, p + 1)
  }

  /**
   * A line comment runs to the next `\n` or `\r`, whatever it contains: a
   * `;` inside it never ends the statement, and one without a line break
   * runs to the end of the input.
   */
  lemma {:induction false} LineCommentSkipped(s: string, p: nat, st: ScanState)
    requires p <= |s| && st.inlineComment
    ensures LineEnd(s, p) == |s| ==> Scan(s, p, st) == Ended(|s|)
    ensures LineEnd(s, p) < |s| ==>
      Scan(s, p, st) == Scan(s, LineEnd(s, p) + 1, st.(inlineComment := false, backslashes := 0))
    decreases |s| - p
  {
    if p < |s| {
      LineCommentStep(s, p, st);
      var r := Step(s, p, st);
      ScanAdvance(s, p, st, r.next, r.state);
      if s[p] != '\n' && s[p] != '\r' {
        LineCommentSkipped(s, r.next, r.state);
      }
    }
  }

  /** One turn inside a line comment: a line break ends it; anything else keeps it open, short of the line end. */
  lemma LineCommentStep(s: string, p: nat, st: ScanState)
    requires p < |s| && st.inlineComment
    ensures var r := Step(s, p, st);
      && r.Advance?
      && (s[p] == '\n' || s[p] == '\r' ==> r == Advance(p + 1, st.(inlineComment := false, backslashes := 0)))
      && (s[p] != '\n' && s[p] != '\r' ==>
            && r.next <= |s| && r.state == st.(backslashes := r.state.backslashes)
            && LineEnd(s, r.next) == LineEnd(s, p))
  {
    if s[p] == '-' && NextIs(s, p + 1, '-') {
      assert LineEnd(s, p) == LineEnd(s, p + 1) == LineEnd(s, p + 2);
    }
  }

  /**
   * Independent statement of block-comment nesting: from index `p` inside
   * comments nested `depth` deep, where the outermost one closes (None when
   * it never does). `/*` goes one deeper, `*/` one shallower.
   */
  function CommentEnd(s: string, p: nat, depth: nat): Option<nat>
    requires p <= |s|
    decreases |s| - p
  {
    if depth == 0 then Some(p)
    else if p == |s| then None
    else if p + 1 < |s| && s[p] == '/' && s[p + 1] == '*' then CommentEnd(s, p + 2, depth + 1)
    else if p + 1 < |s| && s[p] == '*' && s[p + 1] == '/' then CommentEnd(s, p + 2, depth - 1)
    else CommentEnd(s, p + 1, depth)
  }

  /**
   * Block comments nest and are skipped as a whole: a `;` inside one never
   * ends the statement, and an unclosed one runs to the end of the input.
   */
  lemma {:induction false} BlockCommentSkipped(s: string, p: nat, st: ScanState)
    requires p <= |s| && !st.inlineComment && st.commentLevel > 0
    ensures CommentEnd(s, p, st.commentLevel).None? ==> Scan(s, p, st) == Ended(|s|)
    ensures CommentEnd(s, p, st.commentLevel).Some? ==>
      var e := CommentEnd(s, p, st.commentLevel).value;
      e <= |s| && Scan(s, p, st) == Scan(s, e, st.(commentLevel := 0, backslashes := 0))
    decreases |s| - p
  {
    if p < |s| {
      match Step(s, p, st)
      case Advance(q, st') =>
        if st'.commentLevel > 0 {
          BlockCommentSkipped(s, q, st');
        }
    }
  }

  predicate NoCommentOpeners(s: string, p: nat, j: nat) {
    forall k :: p <= k < j && k < |s| ==> s[k] != '/' && s[k] != '-'
  }

  /**
   * Inside a dollar quote with tag `q`, the scan goes on until the identical
   * tag: a `;`, a quote or a different dollar tag in between changes nothing.
   * (Comment openers are recognised even inside quotes, so the text must have
   * none.) A dollar quote whose tag occurs first at `j` closes there.
   */
  lemma {:induction false} DollarQuoteClosesAt(s: string, p: nat, q: string, b: nat, j: nat)
    requires p <= j && |q| > 0 && q[0] == '$' && OccursAt(s, q, j)
    requires forall k :: p <= k < j ==> !OccursAt(s, q, k)
    requires NoCommentOpeners(s, p, j)
    ensures Scan(s, p, ScanState(Some(q), b, 0, false)) == Scan(s, j + |q|, Initial)
    decreases j - p
  {
    if p == j {
      DollarQuoteCloses(s, p, q, b);
    } else {
      assert !OccursAt(s, q, p);
      var b' := Backslashes(s[p], b);
      DollarQuoteGoesOn(s, p, q, b);
      DollarQuoteClosesAt(s, p + 1, q, b', j);
      Chain(Scan(s, p, ScanState(Some(q), b, 0, false)), Scan(s, p + 1, ScanState(Some(q), b', 0, false)),
            Scan(s, j + |q|, Initial));
    }
  }

  lemma Chain(x: ScanResult, y: ScanResult, z: ScanResult)
    requires x == y && y == z
    ensures x == z
  {
  }

  /** A dollar quote whose tag never occurs again runs to the end of the input. */
  lemma {:induction false} DollarQuoteUnclosed(s: string, p: nat, q: string, b: nat)
    requires p <= |s| && |q| > 0 && q[0] == '$'
    requires forall k :: p <= k < |s| ==> !OccursAt(s, q, k)
    requires NoCommentOpeners(s, p, |s|)
    ensures Scan(s, p, ScanState(Some(q), b, 0, false)) == Ended(|s|)
    decreases |s| - p
  {
    if p < |s| {
      assert !OccursAt(s, q, p);
      DollarQuoteGoesOn(s, p, q, b);
      DollarQuoteUnclosed(s, p + 1, q, Backslashes(s[p], b));
    }
  }

  /** At an occurrence of its tag, the dollar quote closes and the scan resumes at top level after it. */
  lemma DollarQuoteCloses(s: string, p: nat, q: string, b: nat)
    requires p < |s| && |q| > 0 && q[0] == '$' && OccursAt(s, q, p) && s[p] != '/' && s[p] != '-'
    ensures p + |q| <= |s| && Scan(s, p, ScanState(Some(q), b, 0, false)) == Scan(s, p + |q|, Initial)
  {
    DollarQuoteStep(s, p, ScanState(Some(q), b, 0, false));
    ScanAdvance(s, p, ScanState(Some(q), b, 0, false), p + |q|, Initial);
  }

  /** Anywhere else, the dollar quote stays open and the scan moves one character on. */
  lemma DollarQuoteGoesOn(s: string, p: nat, q: string, b: nat)
    requires p < |s| && |q| > 0 && q[0] == '$' && !OccursAt(s, q, p) && s[p] != '/' && s[p] != '-'
    ensures Scan(s, p, ScanState(Some(q), b, 0, false)) == Scan(s, p + 1, ScanState(Some(q), Backslashes(s[p], b), 0, false))
  {
    DollarQuoteStep(s, p, ScanState(Some(q), b, 0, false));
    ScanAdvance(s, p, ScanState(Some(q), b, 0, false), p + 1, ScanState(Some(q), Backslashes(s[p], b), 0, false));
  }

  /** A loop turn that advances hands the rest of the scan to the new position and state. */
  lemma ScanAdvance(s: string, p: nat, st: ScanState, q: nat, st': ScanState)
    requires p < |s| && Step(s, p, st) == Advance(q, st')
    ensures q <= |s| && Scan(s, p, st) == Scan(s, q, st')
  {
  }

  /** One step inside a dollar quote: the closing tag, or any other character. */
  lemma DollarQuoteStep(s: string, p: nat, st: ScanState)
    requires p < |s| && st.quotes.Some? && |st.quotes.value| > 0 && st.quotes.value[0] == '$'
    requires st.commentLevel == 0 && !st.inlineComment && s[p] != '/' && s[p] != '-'
    ensures var q := st.quotes.value;
      OccursAt(s, q, p) ==> Step(s, p, st) == Advance(p + |q|, st.(quotes := None, backslashes := 0))
    ensures !OccursAt(s, st.quotes.value, p) ==>
      Step(s, p, st) == Advance(p + 1, st.(backslashes := Backslashes(s[p], st.backslashes)))
  {
    var q := st.quotes.value;
    if OccursAt(s, q, p) {
      assert s[p] == q[0];
      assert IsPrefix(q[1..], s[p + 1..]) by {
        assert s[p + 1..][..|q| - 1] == s[p..p + |q|][1..];
      }
    } else if s[p] == '$' {
      assert !IsPrefix(q[1..], s[p + 1..]);
    }
  }

  /**
   * How a `$` outside quotes and comments opens a dollar quote: `$$` opens
   * the tag `$$`; `$`, a letter, letters and digits, and a `$` open the tag
   * they spell; after a digit, another character or an unclosed tag nothing
   * opens and the scan moves one character on.
   */
  lemma DollarQuoteOpens(s: string, p: nat, st: ScanState)
    requires p < |s| && s[p] == '$' && TopLevel(st)
    ensures NextIs(s, p + 1, '$') ==> Step(s, p, st) == Advance(p + 1, st.(quotes := Some("$$")))
    ensures p + 1 < |s| && IsAlphabetic(s[p + 1]) && TagEnd(s, p + 2) < |s| && s[TagEnd(s, p + 2)] == '$' ==>
              var j := TagEnd(s, p + 2);
              Step(s, p, st) == Advance(j + 1, st.(quotes := Some(s[p..j + 1]), backslashes := 0))
    ensures p + 1 < |s| && IsDigit(s[p + 1]) ==> Step(s, p, st) == Advance(p + 1, st)
    ensures !NextIs(s, p + 1, '$') && !(p + 1 < |s| && IsAlphabetic(s[p + 1]) && TagEnd(s, p + 2) < |s| && s[TagEnd(s, p + 2)] == '$') ==>
              Step(s, p, st) == Advance(p + 1, if p + 1 < |s| && !IsAlphabetic(s[p + 1]) then st else st.(backslashes := 0))
  {
  }

  /**
   * A dollar quote opened at top level by the tag `$tag$` runs to the next
   * occurrence of the same tag, whatever lies between: a `;`, `$$` or a
   * longer tag such as `$tagged$` do not end it.
   */
  lemma TaggedLiteral(s: string, p: nat, st: ScanState, e: nat, tag: string, j: nat)
    requires p + 1 < |s| && s[p] == '$' && TopLevel(st) && IsAlphabetic(s[p + 1])
    requires e == TagEnd(s, p + 2) && e < |s| && s[e] == '$' && tag == s[p..e + 1]
    requires e + 1 <= j && OccursAt(s, tag, j)
    requires forall k :: e + 1 <= k < j ==> !OccursAt(s, tag, k)
    requires NoCommentOpeners(s, e + 1, j)
    ensures Scan(s, p, st) == Scan(s, j + |tag|, Initial)
  {
    var inside := ScanState(Some(tag), 0, 0, false);
    assert Step(s, p, st) == Advance(e + 1, inside) by {
      DollarQuoteOpens(s, p, st);
    }
    ScanAdvance(s, p, st, e + 1, inside);
    DollarQuoteClosesAt(s, e + 1, tag, 0, j);
  }

  /** The nested tags of the splitter's dollar quote test, with a `;` in each gap. */
  const TaggedExample: string := "$tag$;$tagged$;$tag$"

  /** The tag that opens `TaggedExample`. */
  lemma TaggedExampleOpen()
    ensures |TaggedExample| == 20 && TaggedExample[0] == '$' && TaggedExample[1] == 't'
    ensures TagEnd(TaggedExample, 2) == 4 && TaggedExample[4] == '$' && TaggedExample[0..5] == "$tag$"
  {
    var s := TaggedExample;
    assert s[2] == 'a' && s[3] == 'g' && s[4] == '$';
    assert TagEnd(s, 4) == 4;
    assert TagEnd(s, 3) == 4;
  }

  /** The same tag again at index 15. */
  lemma TaggedExampleClose()
    ensures OccursAt(TaggedExample, "$tag$", 15)
  {
  }

  /** What lies between: no comment opener, and `$` only at the ends of `$tagged$`. */
  lemma TaggedExampleInside()
    ensures forall k :: 5 <= k < 15 && k != 6 && k != 13 ==> TaggedExample[k] != '$'
    ensures |TaggedExample| == 20 && TaggedExample[10] != '$' && TaggedExample[17] != '$'
    ensures NoCommentOpeners(TaggedExample, 5, 15)
  {
  }

  /** The tag `$tag$` is not found again before index 15: `$tagged$` differs at its fifth character. */
  lemma TaggedExampleGap(s: string, k: nat)
    requires s == TaggedExample && 5 <= k < 15
    ensures !OccursAt(s, "$tag$", k)
  {
    TaggedExampleInside();
    var tag := "$tag$";
    assert tag[0] == '$' && tag[4] == '$';
    if k + 5 <= |s| {
      assert s[k..k + 5][0] == s[k] && s[k..k + 5][4] == s[k + 4];
    }
  }

  /** The dollar quote hides both `;`s: the scan runs to the end of the text. */
  lemma TaggedExampleScan(s: string)
    requires s == TaggedExample
    ensures Scan(s, 0, Initial) == Ended(|s|)
  {
    TaggedExampleOpen();
    TaggedExampleClose();
    TaggedExampleInside();
    TaggedExampleGaps(s);
    TaggedLiteral(s, 0, Initial, 4, "$tag$", 15);
  }

  /** As the test promises, the text is one statement. */
  lemma TaggedExampleSplit(s: string)
    requires s == TaggedExample
    ensures Split(s) == Splitting([s], false)
  {
    TaggedExampleScan(s);
    TaggedExampleOpen();
    SplitWhole(s);
  }

  lemma TaggedExampleGaps(s: string)
    requires s == TaggedExample
    ensures forall k :: 5 <= k < 15 ==> !OccursAt(s, "$tag$", k)
  {
    forall k | 5 <= k < 15
      ensures !OccursAt(s, "$tag$", k)
    {
      TaggedExampleGap(s, k);
    }
  }

  /**
   * As written: once a `'` or `"` has stored a tag that is neither a quote
   * nor a dollar sign (the character after an opening quote, in practice),
   * nothing closes the literal again, so without comment openers the
   * statement runs to the end of the input.
   */
  lemma {:induction false} QuoteTagNeverCloses(s: string, p: nat, st: ScanState)
    requires p <= |s| && st.quotes.Some? && |st.quotes.value| == 1
    requires st.quotes.value[0] != '"' && st.quotes.value[0] != '\'' && st.quotes.value[0] != '$'
    requires st.commentLevel == 0 && !st.inlineComment
    requires NoCommentOpeners(s, p, |s|)
    ensures Scan(s, p, st) == Ended(|s|)
    decreases |s| - p
  {
    if p < |s| {
      match Step(s, p, st)
      case Advance(n, st') =>
        assert st'.quotes == st.quotes && st'.commentLevel == 0 && !st'.inlineComment;
        QuoteTagNeverCloses(s, n, st');
    }
  }

  // ---------------------------------------------------------------------
  // The backslash parity

  /** Characters no branch of the loop looks at; they reach only the backslash update. */
  predicate Inert(c: char) {
    c != ';' && c != '/' && c != '*' && c != '-' && c != '"' && c != '\'' && c != '$' && c != '\n' && c != '\r'
  }

  /** The backslash flag after the updates for each character of `w`, from `b`. */
  function Parity(w: string, b: nat): nat
    decreases |w|
  {
    if w == [] then b else Backslashes(w[|w| - 1], Parity(w[..|w| - 1], b))
  }

  /** The number of backslashes that end `w`. */
  function TrailingBackslashes(w: string): (n: nat)
    ensures n <= |w|
    decreases |w|
  {
    if w == [] || w[|w| - 1] != '\\' then 0 else TrailingBackslashes(w[..|w| - 1]) + 1
  }

  /**
   * The flag is the parity of the run of backslashes that ends the text read
   * so far; any other character resets it.
   */
  lemma {:induction false} ParityOfTrailingRun(w: string, b: nat)
    requires b < 2
    ensures TrailingBackslashes(w) < |w| ==> Parity(w, b) == TrailingBackslashes(w) % 2
    ensures TrailingBackslashes(w) == |w| ==> Parity(w, b) == (b + |w|) % 2
    decreases |w|
  {
    if w != [] {
      ParityOfTrailingRun(w[..|w| - 1], b);
    }
  }

  /** A run of inert characters changes nothing but the backslash flag. */
  lemma {:induction false} InertRun(s: string, p: nat, j: nat, st: ScanState)
    requires p <= j <= |s|
    requires forall k :: p <= k < j ==> Inert(s[k])
    ensures Scan(s, p, st) == Scan(s, j, st.(backslashes := Parity(s[p..j], st.backslashes)))
    decreases j - p
  {
    if p < j {
      InertRun(s, p, j - 1, st);
      var st1 := st.(backslashes := Parity(s[p..j - 1], st.backslashes));
      assert s[p..j][..j - 1 - p] == s[p..j - 1];
      assert Step(s, j - 1, st1) == Advance(j, st1.(backslashes := Backslashes(s[j - 1], st1.backslashes)));
    }
  }

  // ---------------------------------------------------------------------
  // The quote tag

  /**
   * The scan step with the quote tag the code evidently intends: an opening
   * `'` or `"` stores the quote itself (and cannot panic). Every other case
   * is the step as written.
   */
  function IntendedStep(s: string, p: nat, st: ScanState): (r: StepResult)
    requires p < |s|
    ensures (r.Advance? && p < r.next <= |s|) || r == Break(p + 1)
  {
    if (s[p] == '"' || s[p] == '\'') && TopLevel(st) then
      Advance(p + 1, st.(quotes := Some([s[p]]), backslashes := 0))
    else
      Step(s, p, st)
  }

  /** The scanning loop over `IntendedStep`. */
  function IntendedScan(s: string, p: nat, st: ScanState): (r: ScanResult)
    requires p <= |s|
    ensures r.Ended? && (p < r.end <= |s| || r.end == p == |s|)
    ensures r.end == |s| || s[r.end - 1] == ';'
    decreases |s| - p
  {
    if p == |s| then Ended(|s|)
    else
      match IntendedStep(s, p, st)
      case Break(e) => Ended(e)
      case Advance(q, st') => IntendedScan(s, q, st')
  }

  /** Inside a literal quoted by `c`, up to the next `c`, with no backslash or comment opener. */
  lemma {:induction false} IntendedInsideQuote(s: string, k: nat, j: nat, c: char, st: ScanState)
    requires k <= j < |s| && s[j] == c && (c == '"' || c == '\'')
    requires st.quotes == Some([c]) && st.backslashes == 0 && st.commentLevel == 0 && !st.inlineComment
    requires forall i :: k <= i < j ==> s[i] != c && s[i] != '\\' && s[i] != '/' && s[i] != '-'
    ensures IntendedScan(s, k, st) == IntendedScan(s, j + 1, st.(quotes := None))
    decreases j - k
  {
    QuotedStep(s, k, c, st);
    if k < j {
      IntendedScanAdvance(s, k, st, k + 1, st);
      IntendedInsideQuote(s, k + 1, j, c, st);
    } else {
      IntendedScanAdvance(s, k, st, k + 1, st.(quotes := None));
    }
  }

  /** One step inside a literal quoted by `c`, at a character that is neither a backslash nor a comment opener. */
  lemma QuotedStep(s: string, k: nat, c: char, st: ScanState)
    requires k < |s| && (c == '"' || c == '\'')
    requires st.quotes == Some([c]) && st.backslashes == 0 && st.commentLevel == 0 && !st.inlineComment
    requires s[k] != '\\' && s[k] != '/' && s[k] != '-'
    ensures IntendedStep(s, k, st) == if s[k] == c then Advance(k + 1, st.(quotes := None)) else Advance(k + 1, st)
  {
  }

  /** A step that advances leaves the rest of the intended scan to the state it reaches. */
  lemma IntendedScanAdvance(s: string, p: nat, st: ScanState, q: nat, st': ScanState)
    requires p < |s| && IntendedStep(s, p, st) == Advance(q, st')
    ensures q <= |s| && IntendedScan(s, p, st) == IntendedScan(s, q, st')
  {
  }

  /**
   * With the intended tag, a quoted literal without backslashes or comment
   * openers is skipped as a unit: a `;` inside it never splits, and scanning
   * goes on at top level after the closing quote.
   */
  lemma IntendedQuoteSkipped(s: string, p: nat, j: nat, st: ScanState)
    requires p < j < |s| && (s[p] == '"' || s[p] == '\'') && s[j] == s[p] && TopLevel(st)
    requires forall i :: p < i < j ==> s[i] != s[p] && s[i] != '\\' && s[i] != '/' && s[i] != '-'
    ensures IntendedScan(s, p, st) == IntendedScan(s, j + 1, st.(backslashes := 0))
  {
    var inside := st.(quotes := Some([s[p]]), backslashes := 0);
    assert IntendedStep(s, p, st) == Advance(p + 1, inside);
    IntendedInsideQuote(s, p + 1, j, s[p], inside);
  }

  /** The input that shows the quote tag bug: two statements, the first quoting `a`. */
  const QuoteExample: string := "SELECT 'a'; SELECT 1"

  /** The characters of `QuoteExample` that the two scans look at. */
  lemma QuoteExampleShape()
    ensures |QuoteExample| == 20 && QuoteExample[0] == 'S'
    ensures forall k :: 0 <= k < 7 ==> Inert(QuoteExample[k]) && QuoteExample[k] != '\\'
    ensures QuoteExample[7] == '\'' && QuoteExample[8] == 'a' && QuoteExample[9] == '\''
    ensures QuoteExample[10] == ';'
    ensures NoCommentOpeners(QuoteExample, 8, 20)
  {
  }

  /**
   * As written, the `'` stores the tag `a`, which nothing closes, so the two
   * statements of `QuoteExample` come out as one.
   */
  lemma QuoteTagCounterexample(s: string)
    requires s == QuoteExample
    ensures Scan(s, 0, Initial) == Ended(|s|)
    ensures Split(s) == Splitting([s], false)
  {
    QuoteExampleShape();
    QuoteTagScan(s);
    SplitWhole(s);
  }

  lemma QuoteTagScan(s: string)
    requires s == QuoteExample
    ensures Scan(s, 0, Initial) == Ended(|s|)
  {
    QuoteExampleShape();
    InertRun(s, 0, 7, Initial);
    NoBackslashParity(s[0..7]);
    assert Step(s, 7, Initial) == Advance(8, Initial.(quotes := Some("a")));
    QuoteTagNeverCloses(s, 8, Initial.(quotes := Some("a")));
  }

  /** Text that starts with a non-space character and scans to its end is one statement. */
  lemma SplitWhole(s: string)
    requires s != [] && !IsWhitespace(s[0]) && Scan(s, 0, Initial) == Ended(|s|)
    ensures Split(s) == Splitting([s], false)
  {
    assert s[0] !in Whitespace;
    assert SkipForward(s, 0, Whitespace) == 0;
    assert TrimStart(s) == s;
    var n := NextOf(s);
    assert n.0 == Yield(Statement(s[..|s|], []));
    assert n.1 == [];
    SplitNext(s, n.0, n.1);
    SplitOfEmpty(n.1);
    assert s[..|s|] == s;
    assert [s] + [] == [s];
  }

  /** With the intended tag the first statement of `QuoteExample` ends at its `;`. */
  lemma IntendedQuoteExample(s: string)
    requires s == QuoteExample
    ensures IntendedScan(s, 0, Initial) == Ended(11)
  {
    QuoteExampleShape();
    IntendedInertRun(s, 0, 7, Initial);
    IntendedQuoteSkipped(s, 7, 9, Initial);
    assert IntendedStep(s, 10, Initial) == Break(11);
  }

  /** Without backslashes the flag ends at zero. */
  lemma {:induction false} NoBackslashParity(w: string)
    requires forall k :: 0 <= k < |w| ==> w[k] != '\\'
    ensures Parity(w, 0) == 0
    decreases |w|
  {
    if w != [] {
      NoBackslashParity(w[..|w| - 1]);
    }
  }

  /** `InertRun` for the intended scan, from a top-level state with no backslash pending. */
  lemma {:induction false} IntendedInertRun(s: string, p: nat, j: nat, st: ScanState)
    requires p <= j <= |s| && TopLevel(st) && st.backslashes == 0
    requires forall k :: p <= k < j ==> Inert(s[k]) && s[k] != '\\'
    ensures IntendedScan(s, p, st) == IntendedScan(s, j, st)
    decreases j - p
  {
    if p < j {
      assert IntendedStep(s, p, st) == Advance(p + 1, st);
      IntendedInertRun(s, p + 1, j, st);
    }
  }
}
