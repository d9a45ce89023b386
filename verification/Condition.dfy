/** Step conditions: EvaluateWorkflowStepCondition and splitOnTopLevelOperator.  What a single
    clause means (rendering, equality, truthiness) is a parameter; this module is about how
    `&&` and `||` combine clauses. */
module Condition {
  import opened Text
  import opened Wrappers

  const OR := " || "
  const AND := " && "

  // ---- Where the scanner stops --------------------------------------------------------

  predicate Pair(s: string, i: nat, c: char) {
    i + 1 < |s| && s[i] == c && s[i + 1] == c
  }

  function Closed(depth: nat): nat {
    if depth > 0 then depth - 1 else 0
  }

  /** The template nesting depth at position `i`, if the left-to-right scan stops there:
      a brace pair is stepped over as a whole. */
  function Depth(s: string, i: nat): Option<nat>
    requires i <= |s|
  {
    if i == 0 then
      Some(0)
    else if i >= 2 && Pair(s, i - 2, '{') && Depth(s, i - 2).Some? then
      Some(Depth(s, i - 2).value + 1)
    else if i >= 2 && Pair(s, i - 2, '}') && Depth(s, i - 2).Some? then
      Some(Closed(Depth(s, i - 2).value))
    else if !Pair(s, i - 1, '{') && !Pair(s, i - 1, '}') then
      Depth(s, i - 1)
    else
      None
  }

  /** From a stop, the scan goes on to one next stop. */
  lemma {:induction false} NextStop(s: string, i: nat)
    requires i < |s| && Depth(s, i).Some?
    ensures Pair(s, i, '{') || Pair(s, i, '}') ==> Depth(s, i + 1).None?
    ensures !Pair(s, i, '{') && !Pair(s, i, '}') ==> Depth(s, i + 1) == Depth(s, i)
    ensures Pair(s, i, '{') ==> Depth(s, i + 2) == Some(Depth(s, i).value + 1)
    ensures Pair(s, i, '}') ==> Depth(s, i + 2) == Some(Closed(Depth(s, i).value))
    decreases i
  {
    if i >= 1 && Depth(s, i - 1).Some? {
      NextStop(s, i - 1);
    }
  }

  /** The separator occurs at `i`, outside every template. */
  predicate TopLevel(s: string, sep: string, i: nat) {
    i + |sep| <= |s| && Depth(s, i) == Some(0) && s[i..i + |sep|] == sep
  }

  predicate Separator(sep: string) {
    sep == OR || sep == AND
  }

  /** The first top-level occurrence at or after a stop of the scan. */
  function FirstTopLevel(s: string, sep: string, i: nat, depth: nat): (r: Option<nat>)
    requires Separator(sep) && i <= |s| && Depth(s, i) == Some(depth)
    ensures r.Some? ==> i <= r.value && TopLevel(s, sep, r.value)
    ensures forall j :: i <= j && (r.None? || j < r.value) ==> !TopLevel(s, sep, j)
    decreases |s| - i
  {
    if i + |sep| > |s| then None
    else if Pair(s, i, '{') then
      NextStop(s, i);
      assert !TopLevel(s, sep, i) && !TopLevel(s, sep, i + 1) by { SeparatorHere(s, sep, i); }
      FirstTopLevel(s, sep, i + 2, depth + 1)
    else if Pair(s, i, '}') then
      NextStop(s, i);
      assert !TopLevel(s, sep, i) && !TopLevel(s, sep, i + 1) by { SeparatorHere(s, sep, i); }
      FirstTopLevel(s, sep, i + 2, Closed(depth))
    else if depth == 0 && s[i..i + |sep|] == sep then Some(i)
    else
      NextStop(s, i);
      assert !TopLevel(s, sep, i);
      FirstTopLevel(s, sep, i + 1, depth)
  }

  /** Both sides of the first top-level separator, trimmed. */
  function Split(s: string, sep: string): (r: Option<(string, string)>)
    requires Separator(sep)
    ensures r.Some? ==> |r.value.0| + |r.value.1| + |sep| <= |s|
  {
    match FirstTopLevel(s, sep, 0, 0)
    case Some(k) => Some((Trim(s[..k]), Trim(s[k + |sep|..])))
    case None => None
  }

  lemma SplitsAt(s: string, sep: string, k: nat)
    requires Separator(sep) && TopLevel(s, sep, k) && forall i :: 0 <= i < k ==> !TopLevel(s, sep, i)
    ensures Split(s, sep) == Some((Trim(s[..k]), Trim(s[k + |sep|..])))
  {
    StartDepth(s);
    hide Depth, Trim;
    assert FirstTopLevel(s, sep, 0, 0) == Some(k);
  }

  lemma SplitsNowhere(s: string, sep: string)
    requires Separator(sep) && forall i :: 0 <= i <= |s| - |sep| ==> !TopLevel(s, sep, i)
    ensures Split(s, sep) == None
  {
    StartDepth(s);
    hide Depth, Trim;
  }

  /** splitOnTopLevelOperator. */
  method SplitOnTopLevelOperator(expr: string, sep: string) returns (left: string, right: string, found: bool)
    requires Separator(sep)
    ensures found ==> Split(expr, sep) == Some((left, right))
    ensures !found ==> Split(expr, sep) == None && left == "" && right == ""
  {
    var depth, i: nat := 0, 0;
    StartDepth(expr);
    hide Depth, Split, Trim;
    while i + |sep| <= |expr|
      invariant i <= |expr| && Depth(expr, i) == Some(depth)
      invariant forall j :: 0 <= j < i ==> !TopLevel(expr, sep, j)
    {
      NextStop(expr, i);
      if Pair(expr, i, '{') {
        depth, i := depth + 1, i + 2;
      } else if Pair(expr, i, '}') {
        depth, i := Closed(depth), i + 2;
      } else if depth == 0 && expr[i..i + |sep|] == sep {
        SplitsAt(expr, sep, i);
        return Trim(expr[..i]), Trim(expr[i + |sep|..]), true;
      } else {
        i := i + 1;
      }
    }
    SplitsNowhere(expr, sep);
    return "", "", false;
  }

  // ---- Evaluation ---------------------------------------------------------------------

  type Outcome<E> = Result<bool, E>

  /** EvaluateWorkflowStepCondition: an empty condition holds; otherwise the first top-level
      `||` splits, then the first top-level `&&`, each evaluated left to right and no further
      than needed.  Both parts are strictly shorter than the condition. */
  function Evaluate<E>(condition: string, clause: string -> Outcome<E>): Outcome<E>
    decreases |condition|
  {
    var trimmed := Trim(condition);
    if trimmed == "" then Ok(true)
    else match Split(trimmed, OR)
      case Some((left, right)) =>
        var first := Evaluate(left, clause);
        if first.Err? || first.value then first else Evaluate(right, clause)
      case None =>
        match Split(trimmed, AND)
        case Some((left, right)) =>
          var first := Evaluate(left, clause);
          if first.Err? || !first.value then first else Evaluate(right, clause)
        case None => clause(trimmed)
  }

  // ---- The language: or-of-ands of clauses --------------------------------------------

  /** Disjunctions of conjunctions of clauses, written with spaced operators. */
  function PrintAnd(clauses: seq<string>): string
    requires clauses != []
  {
    if |clauses| == 1 then clauses[0] else clauses[0] + AND + PrintAnd(clauses[1..])
  }

  function PrintOr(tree: seq<seq<string>>): string
    requires tree != [] && forall i :: 0 <= i < |tree| ==> tree[i] != []
  {
    if |tree| == 1 then PrintAnd(tree[0]) else PrintAnd(tree[0]) + OR + PrintOr(tree[1..])
  }

  /** The meaning of the tree: strict left-to-right, short-circuited. */
  function All<E>(clauses: seq<string>, clause: string -> Outcome<E>): Outcome<E> {
    if clauses == [] then Ok(true)
    else match clause(clauses[0])
      case Ok(true) => All(clauses[1..], clause)
      case other => other
  }

  function Any<E>(tree: seq<seq<string>>, clause: string -> Outcome<E>): Outcome<E> {
    if tree == [] then Ok(false)
    else match All(tree[0], clause)
      case Ok(false) => Any(tree[1..], clause)
      case other => other
  }

  /** A trimmed, non-empty text with balanced templates in which none of `bars` stands first
      or behind a top-level space. */
  ghost predicate Piece(s: string, bars: set<char>) {
    && s != "" && Trimmed(s) && Depth(s, |s|) == Some(0) && s[0] !in bars
    && forall i: nat :: !Barred(s, i, bars)
  }

  /** A top-level space with one of `bars` behind it. */
  predicate Barred(s: string, i: nat, bars: set<char>) {
    i + 1 < |s| && Depth(s, i) == Some(0) && s[i] == ' ' && s[i + 1] in bars
  }

  ghost predicate Clause(s: string) {
    Piece(s, {'|', '&'})
  }

  lemma {:induction false} DepthPrefix(a: string, b: string, i: nat)
    requires i <= |a| && (b == "" || b[0] == ' ')
    ensures Depth(a + b, i) == Depth(a, i)
    decreases i
  {
    if i >= 1 {
      DepthPrefix(a, b, i - 1);
      if i >= 2 {
        DepthPrefix(a, b, i - 2);
      }
      assert Pair(a + b, i - 1, '{') == Pair(a, i - 1, '{') && Pair(a + b, i - 1, '}') == Pair(a, i - 1, '}');
    }
  }

  lemma {:induction false} DepthSuffix(a: string, b: string, j: nat)
    requires b != "" && b[0] == ' ' && j <= |b| && Depth(a, |a|) == Some(0)
    ensures Depth(a + b, |a| + j) == Depth(b, j)
    decreases j
  {
    var s := a + b;
    DepthPrefix(a, b, |a|);
    if j >= 1 {
      DepthSuffix(a, b, j - 1);
      assert Pair(s, |a| + j - 1, '{') == Pair(b, j - 1, '{') && Pair(s, |a| + j - 1, '}') == Pair(b, j - 1, '}');
      if j >= 2 {
        DepthSuffix(a, b, j - 2);
        assert Pair(s, |a| + j - 2, '{') == Pair(b, j - 2, '{') && Pair(s, |a| + j - 2, '}') == Pair(b, j - 2, '}');
      }
    }
  }

  lemma {:induction false} TrimmedJoin(a: string, sep: string, b: string)
    requires a != "" && b != "" && Trimmed(a) && Trimmed(b)
    ensures Trimmed(a + sep + b) && Trim(a) == a && Trim(b) == b
  {
    assert (a + sep + b)[|a + sep + b| - 1] == b[|b| - 1];
  }

  lemma SeparatorHere(s: string, sep: string, i: nat)
    requires Separator(sep)
    ensures TopLevel(s, sep, i) ==> s[i] == ' ' && s[i + 1] == sep[1]
  {
    if TopLevel(s, sep, i) {
      assert s[i + 1] == s[i..i + |sep|][1];
    }
  }

  /** Scanning past a piece: inside it no separator with that bar starts, and the scan stops
      exactly at its end. */
  lemma InsidePiece(a: string, rest: string, bars: set<char>, sep: string, i: nat)
    requires Piece(a, bars) && Separator(sep) && sep[1] in bars && (rest == "" || rest[0] == ' ')
    requires i < |a|
    ensures !TopLevel(a + rest, sep, i)
  {
    DepthPrefix(a, rest, i);
    assert !Barred(a, i, bars);
    SeparatorHere(a + rest, sep, i);
  }

  /** A printed binary expression splits at the operator it was printed with. */
  lemma SplitsHere(a: string, bars: set<char>, sep: string, b: string)
    requires Separator(sep) && Piece(a, bars) && sep[1] in bars && b != "" && Trimmed(b)
    ensures Split(a + sep + b, sep) == Some((a, b))
  {
    var s := a + sep + b;
    assert s == a + (sep + b);
    assert TopLevel(s, sep, |a|) by {
      DepthPrefix(a, sep + b, |a|);
      assert s[|a|..|a| + |sep|] == sep;
    }
    assert a != "" && Trimmed(a);
    hide Depth, Piece, TopLevel, Split;
    forall i | 0 <= i < |a| ensures !TopLevel(s, sep, i) {
      InsidePiece(a, sep + b, bars, sep, i);
    }
    SplitsAt(s, sep, |a|);
    assert s[..|a|] == a && s[|a| + |sep|..] == b;
  }

  lemma StartDepth(s: string)
    ensures Depth(s, 0) == Some(0)
  {
  }

  lemma NeverSplits(a: string, bars: set<char>, sep: string)
    requires Separator(sep) && Piece(a, bars) && sep[1] in bars
    ensures Split(a, sep) == None
  {
    hide Depth, Piece, Split;
    assert a + "" == a;
    forall i | 0 <= i < |a| ensures !TopLevel(a, sep, i) {
      InsidePiece(a, "", bars, sep, i);
    }
    SplitsNowhere(a, sep);
  }

  /** Joining a clause and a piece with `&&` gives a piece again, as far as `||` is concerned. */
  lemma JoinIsPiece(a: string, b: string)
    requires Clause(a) && Piece(b, {'|'})
    ensures Piece(a + AND + b, {'|'})
  {
    TrimmedJoin(a, AND, b);
    DepthTail(a, b, |b|);
    hide Depth, Trimmed, Barred;
    forall i: nat ensures !Barred(a + AND + b, i, {'|'}) {
      JoinNotBarred(a, b, i);
    }
  }

  lemma JoinNotBarred(a: string, b: string, i: nat)
    requires Clause(a) && Piece(b, {'|'})
    ensures !Barred(a + AND + b, i, {'|'})
  {
    hide Depth;
    var s := a + AND + b;
    if i < |a| {
      assert s == a + (AND + b);
      DepthPrefix(a, AND + b, i);
      assert !Barred(a, i, {'|', '&'});
    } else if |a| + 4 <= i < |s| {
      DepthTail(a, b, i - |a| - 4);
      assert !Barred(b, i - |a| - 4, {'|'});
    }
  }

  /** Depths in the right operand are counted from zero again. */
  lemma DepthTail(a: string, b: string, j: nat)
    requires Depth(a, |a|) == Some(0) && j <= |b|
    ensures Depth(a + AND + b, |a| + 4 + j) == Depth(b, j)
  {
    assert a + AND + b == a + (AND + b);
    DepthSuffix(a, AND + b, 4 + j);
    AfterAnd(b, j);
  }

  lemma {:induction false} AfterAnd(b: string, j: nat)
    requires j <= |b|
    ensures Depth(AND + b, 4 + j) == Depth(b, j)
  {
    var s := AND + b;
    if j == 0 {
      assert s[0] == ' ' && s[1] == '&' && s[2] == '&' && s[3] == ' ';
      assert Depth(s, 0) == Some(0);
      assert Depth(s, 1) == Some(0);
      assert Depth(s, 2) == Some(0);
      assert Depth(s, 3) == Some(0);
    } else {
      AfterAnd(b, j - 1);
      assert Pair(s, 4 + j - 1, '{') == Pair(b, j - 1, '{') && Pair(s, 4 + j - 1, '}') == Pair(b, j - 1, '}');
      if j >= 2 {
        AfterAnd(b, j - 2);
        assert Pair(s, 4 + j - 2, '{') == Pair(b, j - 2, '{') && Pair(s, 4 + j - 2, '}') == Pair(b, j - 2, '}');
      }
    }
  }

  lemma {:induction false} PrintAndIsPiece(clauses: seq<string>)
    requires clauses != [] && forall i :: 0 <= i < |clauses| ==> Clause(clauses[i])
    ensures Piece(PrintAnd(clauses), {'|'})
  {
    hide Piece;
    if |clauses| == 1 {
      ClauseIsPiece(clauses[0]);
    } else {
      PrintAndIsPiece(clauses[1..]);
      JoinIsPiece(clauses[0], PrintAnd(clauses[1..]));
    }
  }

  lemma ClauseIsPiece(s: string)
    requires Clause(s)
    ensures Piece(s, {'|'})
  {
    forall i: nat ensures !Barred(s, i, {'|'}) {
      assert !Barred(s, i, {'|', '&'});
    }
  }

  lemma {:induction false} EvaluateAnd<E>(clauses: seq<string>, clause: string -> Outcome<E>)
    requires clauses != [] && forall i :: 0 <= i < |clauses| ==> Clause(clauses[i])
    ensures Evaluate(PrintAnd(clauses), clause) == All(clauses, clause)
  {
    hide Piece, Split, Evaluate;
    var head := clauses[0];
    EvaluateClause(head, clause);
    if |clauses| > 1 {
      var rest := PrintAnd(clauses[1..]);
      PrintAndIsPiece(clauses);
      PrintAndIsPiece(clauses[1..]);
      PieceIsTrimmed(PrintAnd(clauses), {'|'});
      PieceIsTrimmed(rest, {'|'});
      NeverSplits(PrintAnd(clauses), {'|'}, OR);
      SplitsHere(head, {'|', '&'}, AND, rest);
      EvaluateStep(PrintAnd(clauses), clause);
      EvaluateAnd(clauses[1..], clause);
    }
  }

  /** One unfolding of the evaluator on a trimmed, non-empty condition. */
  lemma EvaluateStep<E>(s: string, clause: string -> Outcome<E>)
    requires s != "" && Trimmed(s)
    ensures Split(s, OR).Some? ==>
              var (left, right) := Split(s, OR).value;
              var first := Evaluate(left, clause);
              Evaluate(s, clause) == if first.Err? || first.value then first else Evaluate(right, clause)
    ensures Split(s, OR).None? && Split(s, AND).Some? ==>
              var (left, right) := Split(s, AND).value;
              var first := Evaluate(left, clause);
              Evaluate(s, clause) == if first.Err? || !first.value then first else Evaluate(right, clause)
  {
    hide Split;
  }

  lemma PieceIsTrimmed(s: string, bars: set<char>)
    requires Piece(s, bars)
    ensures s != "" && Trimmed(s) && Trim(s) == s
  {
  }

  lemma EvaluateClause<E>(s: string, clause: string -> Outcome<E>)
    requires Clause(s)
    ensures Evaluate(s, clause) == clause(s)
  {
    NeverSplits(s, {'|', '&'}, OR);
    NeverSplits(s, {'|', '&'}, AND);
  }

  /** Evaluating the printed text of any or-of-ands gives the outcome of the tree: the same
      truth value, and the same error when evaluation reaches one. */
  lemma {:induction false} EvaluatePrinted<E>(tree: seq<seq<string>>, clause: string -> Outcome<E>)
    requires tree != [] && forall i :: 0 <= i < |tree| ==> tree[i] != []
    requires forall i, j :: 0 <= i < |tree| && 0 <= j < |tree[i]| ==> Clause(tree[i][j])
    ensures Evaluate(PrintOr(tree), clause) == Any(tree, clause)
  {
    hide Piece, Split, Evaluate;
    EvaluateAnd(tree[0], clause);
    PrintAndIsPiece(tree[0]);
    if |tree| > 1 {
      PrintOrTrimmed(tree[1..]);
      SplitsHere(PrintAnd(tree[0]), {'|'}, OR, PrintOr(tree[1..]));
      EvaluatePrinted(tree[1..], clause);
      PrintOrTrimmed(tree);
      EvaluateStep(PrintOr(tree), clause);
    }
  }

  lemma {:induction false} PrintOrTrimmed(tree: seq<seq<string>>)
    requires tree != [] && forall i :: 0 <= i < |tree| ==> tree[i] != []
    requires forall i, j :: 0 <= i < |tree| && 0 <= j < |tree[i]| ==> Clause(tree[i][j])
    ensures PrintOr(tree) != "" && Trimmed(PrintOr(tree))
  {
    PrintAndIsPiece(tree[0]);
    if |tree| > 1 {
      PrintOrTrimmed(tree[1..]);
      TrimmedJoin(PrintAnd(tree[0]), OR, PrintOr(tree[1..]));
    }
  }

  /** A blank condition holds. */
  lemma BlankHolds<E>(condition: string, clause: string -> Outcome<E>)
    requires AllSpace(condition)
    ensures Evaluate(condition, clause) == Ok(true)
  {
    TrimBlank(condition);
    hide Trim;
  }

  /** Two clauses with && between them: the second counts only if the first holds. */
  lemma AndText<E>(a: string, b: string, clause: string -> Outcome<E>)
    requires Clause(a) && Clause(b)
    ensures Evaluate(a + " && " + b, clause) == if clause(a) == Ok(true) then clause(b) else clause(a)
  {
    var clauses := [a, b];
    hide Clause, Evaluate;
    EvaluateAnd(clauses, clause);
    assert clauses[1..] == [b] && [b][1..] == [];
    assert All([b], clause) == clause(b);
  }

  /** Two clauses with || between them: the second counts only if the first does not hold. */
  lemma OrText<E>(a: string, b: string, clause: string -> Outcome<E>)
    requires Clause(a) && Clause(b)
    ensures Evaluate(a + " || " + b, clause) == if clause(a) == Ok(false) then clause(b) else clause(a)
  {
    var tree := [[a], [b]];
    hide Clause, Evaluate;
    EvaluatePrinted(tree, clause);
    assert tree[1..] == [[b]] && [[b]][1..] == [] && [a][1..] == [] && [b][1..] == [];
    assert All([a], clause) == clause(a) && All([b], clause) == clause(b);
    assert Any([[b]], clause) == clause(b);
  }

  // ---- Which texts are clauses --------------------------------------------------------

  /** Neither braces nor operator characters. */
  predicate Plain(s: string) {
    forall c :: c in s ==> c !in {'{', '}', '|', '&'}
  }

  predicate NoBraces(s: string) {
    forall c :: c in s ==> c !in {'{', '}'}
  }

  /** The depth along a text with one template in it: one inside, zero outside. */
  lemma {:induction false} TemplateDepth(pre: string, body: string, post: string, i: nat)
    requires NoBraces(pre) && NoBraces(body) && NoBraces(post)
    requires i <= |pre| + |body| + |post| + 4
    ensures var s := pre + "{{" + body + "}}" + post; var n, m := |pre|, |pre| + 2 + |body|;
            Depth(s, i) == if i <= n then Some(0)
                           else if i == n + 1 then None
                           else if i <= m then Some(1)
                           else if i == m + 1 then None
                           else Some(0)
  {
    var s := pre + "{{" + body + "}}" + post;
    var n, m := |pre|, |pre| + 2 + |body|;
    if i >= 1 {
      TemplateDepth(pre, body, post, i - 1);
      TemplateChar(pre, body, post, i - 1);
      if i < |s| {
        TemplateChar(pre, body, post, i);
      }
      if i >= 2 {
        TemplateDepth(pre, body, post, i - 2);
        TemplateChar(pre, body, post, i - 2);
      }
    }
  }

  /** Where the braces of that text are. */
  lemma TemplateChar(pre: string, body: string, post: string, i: nat)
    requires NoBraces(pre) && NoBraces(body) && NoBraces(post)
    requires i < |pre| + |body| + |post| + 4
    ensures var s := pre + "{{" + body + "}}" + post; var n, m := |pre|, |pre| + 2 + |body|;
            && (s[i] == '{' <==> i == n || i == n + 1) && (s[i] == '}' <==> i == m || i == m + 1)
            && (i < n ==> s[i] == pre[i]) && (i >= m + 2 ==> s[i] == post[i - m - 2])
            && (n + 2 <= i < m ==> s[i] == body[i - n - 2])
  {
    var s := pre + "{{" + body + "}}" + post;
    var n, m := |pre|, |pre| + 2 + |body|;
    if i < n {
      assert s[i] == pre[i] && pre[i] in pre;
    } else if n + 2 <= i < m {
      assert s[i] == body[i - n - 2] && body[i - n - 2] in body;
    } else if i >= m + 2 {
      assert s[i] == post[i - m - 2] && post[i - m - 2] in post;
    }
  }

  /** A text with a template is a clause, whatever operators stand inside the template. */
  lemma TemplateIsClause(pre: string, body: string, post: string)
    requires Plain(pre) && NoBraces(body) && Plain(post) && Trimmed(pre + "{{" + body + "}}" + post)
    ensures Clause(pre + "{{" + body + "}}" + post)
  {
    var s := pre + "{{" + body + "}}" + post;
    assert NoBraces(pre) && NoBraces(post);
    TemplateDepth(pre, body, post, |s|);
    TemplateChar(pre, body, post, 0);
    assert pre != "" ==> pre[0] in pre;
    forall i: nat ensures !Barred(s, i, {'|', '&'}) {
      if i + 1 < |s| {
        TemplateDepth(pre, body, post, i);
        TemplateChar(pre, body, post, i);
        TemplateChar(pre, body, post, i + 1);
        assert i + 1 < |pre| ==> pre[i + 1] in pre;
        var k := i + 1 - (|pre| + 4 + |body|);
        assert k >= 0 ==> post[k] in post;
      }
      hide Depth;
    }
    hide Depth;
  }

  lemma {:induction false} PlainDepth(s: string, i: nat)
    requires NoBraces(s) && i <= |s|
    ensures Depth(s, i) == Some(0)
  {
    if i >= 1 {
      PlainDepth(s, i - 1);
      assert s[i - 1] in s;
      if i >= 2 {
        assert s[i - 2] in s;
      }
    }
  }

  /** So is every trimmed text without braces and operator characters. */
  lemma PlainIsClause(s: string)
    requires Plain(s) && s != "" && Trimmed(s)
    ensures Clause(s)
  {
    PlainDepth(s, |s|);
    assert s[0] in s;
    forall i: nat ensures !Barred(s, i, {'|', '&'}) {
      if i + 1 < |s| {
        assert s[i + 1] in s;
      }
    }
  }
}
