/** Formula trees: printing them as verifier strings and evaluating what was printed. */
module BoolFormula {
  import opened BoolExpr
  import opened Wrappers

  datatype Formula =
    | Var(name: string)
    | Const(b: bool)
    | Not(f: Formula)
    | And(l: Formula, r: Formula)
    | Or(l: Formula, r: Formula)
    | Group(f: Formula)

  predicate ValidName(n: string) {
    n != [] && n != "0" && n != "1" && forall i :: 0 <= i < |n| ==> BelongsToName(n[i])
  }

  /** Every variable has a valid name and a value. */
  predicate Valued(f: Formula, val: Valuation) {
    match f
    case Var(n) => ValidName(n) && n in val
    case Const(_) => true
    case Not(g) => Valued(g, val)
    case Group(g) => Valued(g, val)
    case And(l, r) => Valued(l, val) && Valued(r, val)
    case Or(l, r) => Valued(l, val) && Valued(r, val)
  }

  predicate Eval(f: Formula, val: Valuation)
    requires Valued(f, val)
  {
    match f
    case Var(n) => val[n]
    case Const(b) => b
    case Not(g) => !Eval(g, val)
    case Group(g) => Eval(g, val)
    case And(l, r) => Eval(l, val) && Eval(r, val)
    case Or(l, r) => Eval(l, val) || Eval(r, val)
  }

  /** Printing where an or (level 0), an and (level 1) or only a unit (level 2) may stand, with
      parentheses where the level does not allow the operator. */
  function Print(f: Formula, level: nat): string
    decreases f, level
  {
    match f
    case Var(n) => n
    case Const(b) => if b then "1" else "0"
    case Not(g) => "!" + Print(g, 2)
    case Group(g) => "(" + Print(g, 0) + ")"
    case And(l, r) => if level <= 1 then Print(l, 1) + "&" + Print(r, 1) else "(" + Print(f, 0) + ")"
    case Or(l, r) => if level == 0 then Print(l, 0) + "|" + Print(r, 0) else "(" + Print(f, 0) + ")"
  }

  // ----- Scanning printed text -----

  /** The text w stands in s from i on. */
  ghost predicate At(s: string, i: nat, w: string) {
    i + |w| <= |s| && s[i..i + |w|] == w
  }

  lemma AtParts(s: string, i: nat, u: string, c: char, v: string)
    requires At(s, i, u + [c] + v)
    ensures At(s, i, u) && i + |u| < |s| && s[i + |u|] == c && At(s, i + |u| + 1, v)
  {
    var w := u + [c] + v;
    assert s[i..i + |w|][..|u|] == s[i..i + |u|];
    assert s[i..i + |w|][|u|] == s[i + |u|];
    assert s[i..i + |w|][|u| + 1..] == s[i + |u| + 1..i + |u| + 1 + |v|];
    assert w[..|u|] == u && w[|u| + 1..] == v;
  }

  /** Two texts with one character between them. */
  lemma ScanParts(s: string, op: char, i: nat, u: string, c: char, v: string, st: Scan)
    requires At(s, i, u + [c] + v) && ScanOk(st, i)
    ensures At(s, i, u) && i + |u| < |s| && s[i + |u|] == c && At(s, i + |u| + 1, v)
    ensures var first := Scanned(s, op, i, i + |u|, st);
            first.Ok? ==>
              var mid := Step(s, op, i + |u|, first.value);
              mid.Ok? ==> Scanned(s, op, i, i + |u| + 1 + |v|, st) == Scanned(s, op, i + |u| + 1, i + |u| + 1 + |v|, mid.value)
  {
    hide Step, At;
    AtParts(s, i, u, c, v);
    AtBound(s, i + |u| + 1, v);
    ScannedSplit(s, op, i, i + |u|, i + |u| + 1 + |v|, st);
  }

  lemma AtBound(s: string, i: nat, w: string)
    requires At(s, i, w)
    ensures i + |w| <= |s|
  {
  }

  lemma StepNested(s: string, op: char, i: nat, st: Scan)
    requires i < |s| && ScanOk(st, i) && st.parity > 0 && s[i] != '(' && s[i] != ')'
    ensures Step(s, op, i, st) == Ok(st)
  {
  }

  /** Two texts with an operator between them, inside parentheses. */
  lemma NestedPair(s: string, op: char, i: nat, u: string, c: char, v: string, st: Scan)
    requires At(s, i, u + [c] + v) && ScanOk(st, i) && st.parity > 0 && c != '(' && c != ')'
    requires Scanned(s, op, i, i + |u|, st) == Ok(st)
    ensures At(s, i + |u| + 1, v) && i + |u| + 1 + |v| <= |s|
    ensures Scanned(s, op, i, i + |u| + 1 + |v|, st) == Scanned(s, op, i + |u| + 1, i + |u| + 1 + |v|, st)
  {
    hide Step, Scanned, At;
    ScanParts(s, op, i, u, c, v, st);
    StepNested(s, op, i + |u|, st);
    AtBound(s, i + |u| + 1, v);
  }

  /** A text that begins with one character. */
  lemma ScanPrefix(s: string, op: char, i: nat, c: char, v: string, st: Scan)
    requires At(s, i, [c] + v) && ScanOk(st, i)
    ensures i < |s| && s[i] == c && At(s, i + 1, v) && i + 1 + |v| <= |s|
    ensures var next := Step(s, op, i, st);
            next.Ok? ==> Scanned(s, op, i, i + 1 + |v|, st) == Scanned(s, op, i + 1, i + 1 + |v|, next.value)
  {
    hide Step;
    assert s[i..i + 1 + |v|][0] == s[i];
    assert s[i..i + 1 + |v|][1..] == s[i + 1..i + 1 + |v|];
    assert ([c] + v)[1..] == v;
  }

  /** Inside parentheses only parentheses count. */
  lemma {:induction false} ScanNested(s: string, op: char, i: nat, f: Formula, level: nat, val: Valuation, st: Scan)
    requires Valued(f, val) && At(s, i, Print(f, level)) && ScanOk(st, i) && st.parity > 0 && st.start != -1
    ensures Scanned(s, op, i, i + |Print(f, level)|, st) == Ok(st)
    decreases f, level, 2
  {
    hide At, Scanned, Step, BelongsToName;
    match f
    case Var(n) => ScanName(s, op, i, n, st);
    case Const(b) =>
      NameDigits();
      ScanName(s, op, i, Print(f, level), st);
    case Not(g) =>
      ScanPrefix(s, op, i, '!', Print(g, 2), st);
      StepNested(s, op, i, st);
      ScanNested(s, op, i + 1, g, 2, val, st);
    case Group(g) => ScanParens(s, op, i, g, val, st);
    case And(l, r) =>
      if level <= 1 {
        NestedBinary(s, op, i, f, level, l, '&', r, 1, val, st);
      } else {
        ScanParens(s, op, i, f, val, st);
      }
    case Or(l, r) =>
      if level == 0 {
        NestedBinary(s, op, i, f, level, l, '|', r, 0, val, st);
      } else {
        ScanParens(s, op, i, f, val, st);
      }
  }

  lemma {:induction false} NestedBinary(s: string, op: char, i: nat, f: Formula, level: nat, l: Formula, c: char,
          r: Formula, below: nat, val: Valuation, st: Scan)
    requires l < f && r < f && Valued(l, val) && Valued(r, val) && (c == '&' || c == '|')
    requires At(s, i, Print(l, below) + [c] + Print(r, below)) && ScanOk(st, i) && st.parity > 0 && st.start != -1
    ensures i + |Print(l, below)| + 1 + |Print(r, below)| <= |s|
    ensures Scanned(s, op, i, i + |Print(l, below)| + 1 + |Print(r, below)|, st) == Ok(st)
    decreases f, level, 1
  {
    hide At, Scanned, Step, Print, Valued;
    AtParts(s, i, Print(l, below), c, Print(r, below));
    ScanNested(s, op, i, l, below, val, st);
    NestedPair(s, op, i, Print(l, below), c, Print(r, below), st);
    ScanNested(s, op, i + |Print(l, below)| + 1, r, below, val, st);
  }

  lemma NameDigits()
    ensures BelongsToName('0') && BelongsToName('1')
  {
  }

  lemma ScanEmpty(s: string, op: char, i: nat, st: Scan)
    requires i <= |s| && ScanOk(st, i)
    ensures Scanned(s, op, i, i, st) == Ok(st)
  {
  }

  /** A name, a constant or a run of name characters begins a subexpression or goes on with it. */
  lemma {:induction false} ScanName(s: string, op: char, i: nat, n: string, st: Scan)
    requires n != [] && (forall k :: 0 <= k < |n| ==> BelongsToName(n[k])) && At(s, i, n) && ScanOk(st, i)
    requires st.parity > 0 ==> st.start != -1
    requires st.parity >= 0
    ensures Scanned(s, op, i, i + |n|, st) == Ok(st.(start := if st.start == -1 then i else st.start))
    decreases |n|
  {
    assert s[i] == n[0] by { assert s[i..i + |n|][0] == s[i]; }
    var next := st.(start := if st.start == -1 then i else st.start);
    assert Step(s, op, i, st) == Ok(next);
    if |n| > 1 {
      assert At(s, i + 1, n[1..]) by { assert s[i..i + |n|][1..] == s[i + 1..i + |n|]; }
      ScanName(s, op, i + 1, n[1..], next);
    } else {
      ScanEmpty(s, op, i + 1, next);
    }
  }

  /** Parentheses around a formula. */
  lemma {:induction false} ScanParens(s: string, op: char, i: nat, f: Formula, val: Valuation, st: Scan)
    requires Valued(f, val) && At(s, i, "(" + Print(f, 0) + ")") && ScanOk(st, i) && st.parity >= 0
    requires st.parity > 0 ==> st.start != -1
    ensures Scanned(s, op, i, i + |Print(f, 0)| + 2, st) == Ok(st.(start := if st.start == -1 then i else st.start))
    decreases f, 0, 3
  {
    hide At, Scanned, Print, Valued;
    var w := Print(f, 0);
    assert "(" + w + ")" == ['('] + (w + [')'] + "");
    ScanPrefix(s, op, i, '(', w + [')'] + "", st);
    var inside := Scan(if st.start == -1 then i else st.start, st.parity + 1, st.subs);
    ScanParts(s, op, i + 1, w, ')', "", inside);
    ScanNested(s, op, i + 1, f, 0, val, inside);
    ScanEmpty(s, op, i + 1 + |w| + 1, inside.(parity := st.parity));
  }

  // ----- Top-level text -----

  /** A step over an operator that is not the one being split at, or past a subexpression's start. */
  lemma StepOther(s: string, op: char, i: nat, st: Scan)
    requires i < |s| && ScanOk(st, i) && st.parity == 0 && st.start != -1 && (s[i] == '&' || s[i] == '|')
    ensures Step(s, op, i, st) == if s[i] == op then Ok(Scan(i + 1, 0, st.subs + [s[st.start..i]])) else Ok(st)
  {
  }

  function Begun(st: Scan, i: nat): Scan {
    st.(start := if st.start == -1 then i else st.start)
  }

  /** A text that the operator does not split: it only begins a subexpression or goes on with it. */
  lemma {:induction false} ScanUnit(s: string, op: char, i: nat, f: Formula, level: nat, val: Valuation, st: Scan)
    requires Valued(f, val) && At(s, i, Print(f, level)) && ScanOk(st, i) && st.parity == 0
    requires level == 2 || (level == 1 && op == '|')
    ensures Scanned(s, op, i, i + |Print(f, level)|, st) == Ok(Begun(st, i))
    decreases f, level
  {
    hide At, Scanned, BelongsToName, Step;
    match f
    case Var(n) => ScanName(s, op, i, n, st);
    case Const(b) =>
      NameDigits();
      ScanName(s, op, i, Print(f, level), st);
    case Not(g) =>
      ScanPrefix(s, op, i, '!', Print(g, 2), st);
      StepBang(s, op, i, st);
      ScanUnit(s, op, i + 1, g, 2, val, Begun(st, i));
    case Group(g) => ScanParens(s, op, i, g, val, st);
    case And(l, r) =>
      if level <= 1 {
        var mid := i + |Print(l, 1)|;
        ScanParts(s, op, i, Print(l, 1), '&', Print(r, 1), st);
        ScanUnit(s, op, i, l, 1, val, st);
        StepOther(s, op, mid, Begun(st, i));
        ScanUnit(s, op, mid + 1, r, 1, val, Begun(st, i));
      } else {
        ScanParens(s, op, i, f, val, st);
      }
    case Or(l, r) => ScanParens(s, op, i, f, val, st);
  }

  lemma StepBang(s: string, op: char, i: nat, st: Scan)
    requires i < |s| && ScanOk(st, i) && st.parity == 0 && s[i] == '!'
    ensures Step(s, op, i, st) == Ok(Begun(st, i))
  {
  }

  /** The formulas that a top-level operator joins: ors at level 0, ands at level 1. */
  function Parts(f: Formula, level: nat): (r: seq<Formula>)
    ensures |r| >= 1
  {
    if f.Or? && level == 0 then Parts(f.l, 0) + Parts(f.r, 0)
    else if f.And? && level == 1 then Parts(f.l, 1) + Parts(f.r, 1)
    else [f]
  }

  function Texts(fs: seq<Formula>, level: nat): seq<string> {
    seq(|fs|, i requires 0 <= i < |fs| => Print(fs[i], level))
  }

  /** Scanning w splits off init and leaves last, the end of w, as the subexpression begun. */
  ghost predicate SplitsTo(s: string, op: char, i: nat, w: string, init: seq<string>, last: string, st: Scan) {
    && i + |w| <= |s| && ScanOk(st, i) && |last| <= |w|
    && At(s, i + |w| - |last|, last)
    && Scanned(s, op, i, i + |w|, st) == Ok(Scan(i + |w| - |last|, 0, st.subs + init))
  }

  lemma SplitMiddle(s: string, op: char, i: nat, u: string, init: seq<string>, last: string, st: Scan)
    requires SplitsTo(s, op, i, u, init, last, st) && i + |u| < |s| && s[i + |u|] == op && (op == '&' || op == '|')
    ensures ScanOk(Scan(i + |u| - |last|, 0, st.subs + init), i + |u|)
    ensures Step(s, op, i + |u|, Scan(i + |u| - |last|, 0, st.subs + init)) == Ok(Scan(i + |u| + 1, 0, st.subs + init + [last]))
    ensures ScanOk(Scan(i + |u| + 1, 0, st.subs + init + [last]), i + |u| + 1)
  {
    hide Scanned, Step;
    StepOther(s, op, i + |u|, Scan(i + |u| - |last|, 0, st.subs + init));
  }

  lemma SplitJoin(s: string, op: char, i: nat, u: string, v: string, initU: seq<string>, lastU: string,
          initV: seq<string>, lastV: string, st: Scan)
    requires (op == '&' || op == '|') && At(s, i, u + [op] + v)
    requires SplitsTo(s, op, i, u, initU, lastU, st)
    requires SplitsTo(s, op, i + |u| + 1, v, initV, lastV, Scan(i + |u| + 1, 0, st.subs + initU + [lastU]))
    ensures SplitsTo(s, op, i, u + [op] + v, initU + [lastU] + initV, lastV, st)
  {
    hide At, Step, Scanned, ScanOk;
    ScanParts(s, op, i, u, op, v, st);
    SplitMiddle(s, op, i, u, initU, lastU, st);
    assert st.subs + initU + [lastU] + initV == st.subs + (initU + [lastU] + initV);
  }

  /** Splitting a printed formula at its own operator gives the texts of its parts. */
  lemma {:induction false} ScanSplit(s: string, op: char, i: nat, f: Formula, level: nat, val: Valuation, st: Scan)
    requires (level == 0 && op == '|') || (level == 1 && op == '&')
    requires Valued(f, val) && At(s, i, Print(f, level)) && ScanOk(st, i) && st.parity == 0 && (st.start == -1 || st.start == i)
    ensures var parts := Parts(f, level);
            SplitsTo(s, op, i, Print(f, level), Texts(parts[..|parts| - 1], level + 1), Print(parts[|parts| - 1], level + 1), st)
    decreases f, level, 1
  {
    hide At, Scanned, BelongsToName, Step, Texts;
    if (f.Or? && level == 0) || (f.And? && level == 1) {
      SplitBinary(s, op, i, f, level, val, st);
    } else {
      SameText(f, level);
      AtBound(s, i, Print(f, level));
      ScanUnit(s, op, i, f, level + 1, val, st);
      NoTexts(st.subs, f, level + 1);
    }
  }

  lemma {:induction false} SplitBinary(s: string, op: char, i: nat, f: Formula, level: nat, val: Valuation, st: Scan)
    requires (f.Or? && level == 0 && op == '|') || (f.And? && level == 1 && op == '&')
    requires Valued(f, val) && At(s, i, Print(f, level)) && ScanOk(st, i) && st.parity == 0 && (st.start == -1 || st.start == i)
    ensures var parts := Parts(f, level);
            SplitsTo(s, op, i, Print(f, level), Texts(parts[..|parts| - 1], level + 1), Print(parts[|parts| - 1], level + 1), st)
    decreases f, level, 0
  {
    hide At, Scanned, Step, Texts, Print, Parts, SplitsTo, ScanOk, BelongsToName, ValidName;
    BinaryText(f, level, op);
    var u, v := Print(f.l, level), Print(f.r, level);
    var left, right := Parts(f.l, level), Parts(f.r, level);
    var initLeft, lastLeft := Texts(left[..|left| - 1], level + 1), Print(left[|left| - 1], level + 1);
    AtParts(s, i, u, op, v);
    ScanSplit(s, op, i, f.l, level, val, st);
    SplitMiddle(s, op, i, u, initLeft, lastLeft, st);
    ScanSplit(s, op, i + |u| + 1, f.r, level, val, Scan(i + |u| + 1, 0, st.subs + initLeft + [lastLeft]));
    var initRight, lastRight := Texts(right[..|right| - 1], level + 1), Print(right[|right| - 1], level + 1);
    SplitJoin(s, op, i, u, v, initLeft, lastLeft, initRight, lastRight, st);
    PartsJoin(left, right, level + 1);
  }

  lemma BinaryText(f: Formula, level: nat, op: char)
    requires (f.Or? && level == 0 && op == '|') || (f.And? && level == 1 && op == '&')
    ensures Print(f, level) == Print(f.l, level) + [op] + Print(f.r, level)
    ensures Parts(f, level) == Parts(f.l, level) + Parts(f.r, level)
  {
  }

  /** Without its own operator at the top, a formula prints alike at this and the next level. */
  lemma SameText(f: Formula, level: nat)
    requires level <= 1 && !(f.Or? && level == 0) && !(f.And? && level == 1)
    ensures Print(f, level) == Print(f, level + 1)
  {
  }

  lemma PartsJoin(left: seq<Formula>, right: seq<Formula>, level: nat)
    requires |left| >= 1 && |right| >= 1
    ensures var all := left + right;
            Texts(left[..|left| - 1], level) + [Print(left[|left| - 1], level)] + Texts(right[..|right| - 1], level)
            == Texts(all[..|all| - 1], level)
  {
    var all := left + right;
    assert all[..|all| - 1] == left[..|left| - 1] + [left[|left| - 1]] + right[..|right| - 1];
  }

  lemma NoTexts(subs: seq<string>, f: Formula, level: nat)
    ensures subs + Texts([f][..0], level) == subs
  {
  }

  /** Parsing a printed formula at the operator of its level gives the texts of its parts. */
  lemma ParsedParts(f: Formula, level: nat, op: char, val: Valuation)
    requires Valued(f, val) && ((level == 0 && op == '|') || (level == 1 && op == '&'))
    ensures Parsed(Print(f, level), op) == Ok(Texts(Parts(f, level), level + 1))
  {
    hide Scanned, Step, Print, Valued, Parts;
    var s, parts := Print(f, level), Parts(f, level);
    assert At(s, 0, s) by { assert s[0..|s|] == s; }
    ScanSplit(s, op, 0, f, level, val, Scan(-1, 0, []));
    var last := Print(parts[|parts| - 1], level + 1);
    assert s[|s| - |last|..] == last;
    assert [] + Texts(parts[..|parts| - 1], level + 1) + [last] == Texts(parts, level + 1);
  }

  // ----- Values of parts -----

  function Folded(fs: seq<Formula>, val: Valuation, conj: bool): bool
    requires forall k :: 0 <= k < |fs| ==> Valued(fs[k], val)
  {
    if fs == [] then conj
    else if conj then Eval(fs[0], val) && Folded(fs[1..], val, conj)
    else Eval(fs[0], val) || Folded(fs[1..], val, conj)
  }

  lemma {:induction false} FoldedJoin(a: seq<Formula>, b: seq<Formula>, val: Valuation, conj: bool)
    requires forall k :: 0 <= k < |a| ==> Valued(a[k], val)
    requires forall k :: 0 <= k < |b| ==> Valued(b[k], val)
    ensures forall k :: 0 <= k < |a + b| ==> Valued((a + b)[k], val)
    ensures Folded(a + b, val, conj) ==
            if conj then Folded(a, val, conj) && Folded(b, val, conj) else Folded(a, val, conj) || Folded(b, val, conj)
  {
    hide Valued, Eval;
    if a == [] {
      assert a + b == b;
    } else {
      FoldedJoin(a[1..], b, val, conj);
      assert (a + b)[1..] == a[1..] + b;
    }
  }

  /** A formula has the value of its parts joined. */
  lemma {:induction false} PartsValue(f: Formula, level: nat, val: Valuation)
    requires level <= 1 && Valued(f, val)
    ensures var parts := Parts(f, level);
            (forall k :: 0 <= k < |parts| ==> Valued(parts[k], val)) && Folded(parts, val, level == 1) == Eval(f, val)
  {
    if (f.Or? && level == 0) || (f.And? && level == 1) {
      PartsValue(f.l, level, val);
      PartsValue(f.r, level, val);
      FoldedJoin(Parts(f.l, level), Parts(f.r, level), val, level == 1);
    } else {
      assert Parts(f, level)[1..] == [];
    }
  }

  // ----- The theorem -----

  lemma {:induction false} PrintedChars(f: Formula, level: nat, val: Valuation)
    requires Valued(f, val)
    ensures Print(f, level) != [] && forall i :: 0 <= i < |Print(f, level)| ==> !IsSpace(Print(f, level)[i])
    decreases f, level
  {
    match f
    case Var(n) =>
    case Const(b) =>
    case Not(g) => PrintedChars(g, 2, val);
    case Group(g) => PrintedChars(g, 0, val);
    case And(l, r) =>
      if level <= 1 {
        PrintedChars(l, 1, val);
        PrintedChars(r, 1, val);
      } else {
        PrintedChars(f, 0, val);
      }
    case Or(l, r) =>
      if level == 0 {
        PrintedChars(l, 0, val);
        PrintedChars(r, 0, val);
      } else {
        PrintedChars(f, 0, val);
      }
  }

  /** The formula whose text at level 0 is this one's text at another level. */
  function Bare(f: Formula, level: nat): Formula {
    if (f.Or? && level >= 1) || (f.And? && level >= 2) then Group(f) else f
  }

  lemma BareText(f: Formula, level: nat, val: Valuation)
    requires Valued(f, val)
    ensures Print(Bare(f, level), 0) == Print(f, level)
    ensures Valued(Bare(f, level), val) && Eval(Bare(f, level), val) == Eval(f, val)
  {
  }

  /** Resolving a text that was printed from f at some level. */
  lemma {:induction false} ResolvesText(f: Formula, level: nat, val: Valuation)
    requires Valued(f, val)
    ensures Resolved(Print(f, level), val) == Ok(Eval(f, val))
    decreases |Print(f, level)|, 1
  {
    hide Print, Eval, Valued, ResolvedRec;
    BareText(f, level, val);
    PrintedChars(f, level, val);
    NothingToRemove(Print(f, level));
    ResolvesPrinted(Bare(f, level), val);
  }

  lemma {:induction false} ResolvesAll(fs: seq<Formula>, level: nat, val: Valuation, conj: bool, n: nat)
    requires forall k :: 0 <= k < |fs| ==> Valued(fs[k], val) && |Print(fs[k], level)| < n
    ensures ResolvedAll(Texts(fs, level), val, conj, n) == Ok(Folded(fs, val, conj))
    decreases n, 0, 0, |fs|
  {
    hide Print, Eval, Valued, Resolved;
    if fs != [] {
      assert Texts(fs, level)[1..] == Texts(fs[1..], level);
      ResolvesText(fs[0], level, val);
      ResolvesAll(fs[1..], level, val, conj, n);
    }
  }

  /** Splitting at an operator that is there. */
  lemma {:induction false} ResolvesParts(f: Formula, level: nat, op: char, val: Valuation)
    requires Valued(f, val) && ((f.Or? && level == 0 && op == '|') || (f.And? && level == 1 && op == '&'))
    ensures ResolvedRec(Print(f, 0), val) == Ok(Eval(f, val))
    decreases |Print(f, 0)|, 0, 1
  {
    hide Print, Eval, Valued, Parts, Scanned, Step, Texts, ResolvedAll, ResolvedOne, Folded;
    var s, parts := Print(f, 0), Parts(f, level);
    TopText(f, level, val);
    ParsedParts(f, level, op, val);
    PartsValue(f, level, val);
    TextsAt(parts, level + 1);
    ResolvesAll(parts, level + 1, val, level == 1, |s|);
    if f.And? {
      ParsedParts(f, 0, '|', val);
      OnePart(f, 0);
    }
  }

  lemma TopText(f: Formula, level: nat, val: Valuation)
    requires Valued(f, val) && ((f.Or? && level == 0) || (f.And? && level == 1))
    ensures Print(f, level) == Print(f, 0) != [] && |Parts(f, level)| >= 2
  {
  }

  lemma TextsAt(fs: seq<Formula>, level: nat)
    ensures |Texts(fs, level)| == |fs| && forall k :: 0 <= k < |fs| ==> Texts(fs, level)[k] == Print(fs[k], level)
  {
  }

  lemma OnePart(f: Formula, level: nat)
    requires !(f.Or? && level == 0) && !(f.And? && level == 1)
    ensures Parts(f, level) == [f] && |Texts(Parts(f, level), level + 1)| == 1
  {
  }

  /** The printed text of any formula resolves to the formula's value. */
  lemma {:induction false} ResolvesPrinted(f: Formula, val: Valuation)
    requires Valued(f, val)
    ensures ResolvedRec(Print(f, 0), val) == Ok(Eval(f, val))
    decreases |Print(f, 0)|, 0, 2
  {
    hide Print, Eval, Valued, Parts, Scanned, Step, Texts, ResolvedAll, ResolvedOne, Folded;
    if f.Or? {
      ResolvesParts(f, 0, '|', val);
    } else if f.And? {
      ResolvesParts(f, 1, '&', val);
    } else {
      PrintedChars(f, 0, val);
      ParsedParts(f, 0, '|', val);
      ParsedParts(f, 1, '&', val);
      OnePart(f, 0);
      OnePart(f, 1);
      SameText(f, 0);
      ResolvesUnit(f, val);
    }
  }

  lemma {:induction false} ResolvesUnit(f: Formula, val: Valuation)
    requires Valued(f, val) && !f.Or? && !f.And?
    ensures Print(f, 0) != [] && ResolvedOne(Print(f, 0), val) == Ok(Eval(f, val))
    decreases |Print(f, 0)|, 0, 1
  {
    hide Resolved, BelongsToName;
    match f
    case Var(n) => NameStart(n[0]);
    case Const(b) =>
    case Not(g) =>
      assert Print(f, 0)[1..] == Print(g, 2);
      ResolvesText(g, 2, val);
    case Group(g) =>
      assert Print(f, 0)[1..|Print(f, 0)| - 1] == Print(g, 0);
      ResolvesText(g, 0, val);
  }

  lemma NameStart(c: char)
    requires BelongsToName(c)
    ensures c != '!' && c != '('
  {
  }

  /** Whitespace anywhere: any string that, without its spaces, is the printed text of a formula
      whose variables all have values evaluates to the formula's value. */
  lemma ResolvesFormula(source: string, f: Formula, val: Valuation)
    requires Valued(f, val) && WithoutSpaces(source) == Print(f, 0)
    ensures Resolved(source, val) == Ok(Eval(f, val))
  {
    ResolvesPrinted(f, val);
  }
}
