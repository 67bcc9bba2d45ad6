/**
 The evaluator of boolean verifier strings (src/LibBoolEE.cpp): splitting at top-level operators
 and evaluating. Variables, constants, !, & and | in rising order of scope, and parentheses.
 */
module BoolExpr {
  import opened Wrappers

  datatype Error = EmptySubExpression | UnknownOperator | ParenthesisParity | NotAFormula | VariableNotFound

  datatype Result<T> = Ok(value: T) | Err(error: Error)

  type Valuation = map<string, bool>

  predicate BelongsToName(c: char) {
    '0' <= c <= '9' || 'A' <= c <= 'Z' || 'a' <= c <= 'z' || c == '_' || c == '#' || c == '.'
  }

  const DIGITS := "0123456789"
  const CAPITALS := "ABCDEFGHIJKLM" + "NOPQRSTUVWXYZ"
  const SMALL := "abcdefghijklm" + "nopqrstuvwxyz"

  /** The characters of a name are the letters, the digits and three more; no space, parenthesis or
      operator is one. */
  lemma NameCharacters(c: char)
    ensures BelongsToName(c) <==> c in DIGITS || c in CAPITALS || c in SMALL || c in "_#."
    ensures BelongsToName(c) ==> !IsSpace(c) && c !in "()!&|"
  {
    Run(DIGITS, '0', c);
    Run(CAPITALS, 'A', c);
    Run(SMALL, 'a', c);
  }

  /** Consecutive characters from the first on. */
  lemma Run(s: string, first: char, c: char)
    requires |s| < 100 && first < '~'
    requires forall i :: 0 <= i < |s| ==> s[i] as int == first as int + i
    ensures c in s <==> first as int <= c as int < first as int + |s|
  {
    if first as int <= c as int < first as int + |s| {
      assert s[c as int - first as int] == c;
    }
  }

  function WithoutSpaces(s: string): (r: string)
    ensures |r| <= |s| && forall i :: 0 <= i < |r| ==> !IsSpace(r[i])
  {
    if s == [] then []
    else WithoutSpaces(s[..|s| - 1]) + (if IsSpace(s[|s| - 1]) then [] else [s[|s| - 1]])
  }

  method RemoveWhitespaces(source: string) returns (r: string)
    ensures r == WithoutSpaces(source)
  {
    r := "";
    for i := 0 to |source|
      invariant r == WithoutSpaces(source[..i])
    {
      assert source[..i + 1][..i] == source[..i];
      if !IsSpace(source[i]) {
        r := r + [source[i]];
      }
    }
    assert source[..|source|] == source;
  }

  lemma {:induction false} NothingToRemove(s: string)
    requires forall i :: 0 <= i < |s| ==> !IsSpace(s[i])
    ensures WithoutSpaces(s) == s
  {
    if s != [] {
      NothingToRemove(s[..|s| - 1]);
      assert s == s[..|s| - 1] + [s[|s| - 1]];
    }
  }

  // ----- Splitting -----

  /** Where the current subexpression began (-1: not yet), how deep in parentheses, what was split off. */
  datatype Scan = Scan(start: int, parity: int, subs: seq<string>)

  /** Positions make sense: pieces are shorter than what was read, later ones begin past an operator. */
  ghost predicate ScanOk(st: Scan, i: nat) {
    && -1 <= st.start <= i
    && (forall k :: 0 <= k < |st.subs| ==> |st.subs[k]| < i)
    && (st.subs != [] ==> st.start >= 1)
  }

  /** One character. */
  function Step(s: string, op: char, i: nat, st: Scan): (r: Result<Scan>)
    requires i < |s| && ScanOk(st, i)
    ensures r.Ok? ==> ScanOk(r.value, i + 1)
  {
    var c := s[i];
    if c == ')' then Ok(st.(parity := st.parity - 1))
    else if c == '(' then Ok(Scan(if st.start == -1 then i else st.start, st.parity + 1, st.subs))
    else if st.parity != 0 then Ok(st)
    else if st.start == -1 then Ok(if BelongsToName(c) || c == '!' then st.(start := i) else st)
    else if BelongsToName(c) || c == '!' then Ok(st)
    else if c == op then Ok(Scan(i + 1, 0, st.subs + [s[st.start..i]]))
    else if c == '&' || c == '|' then Ok(st)
    else Err(UnknownOperator)
  }

  /** The characters from i up to j. */
  function Scanned(s: string, op: char, i: nat, j: nat, st: Scan): (r: Result<Scan>)
    requires i <= j <= |s| && ScanOk(st, i)
    ensures r.Ok? ==> ScanOk(r.value, j)
    decreases j - i
  {
    if i == j then Ok(st)
    else
      var next := Step(s, op, i, st);
      if next.Err? then next else Scanned(s, op, i + 1, j, next.value)
  }

  /** The subexpressions between top-level operators. */
  function Parsed(s: string, op: char): (r: Result<seq<string>>)
    ensures r.Ok? ==> forall k :: 0 <= k < |r.value| ==> |r.value[k]| <= |s| && (|r.value| >= 2 ==> |r.value[k]| < |s|)
  {
    var st := Scanned(s, op, 0, |s|, Scan(-1, 0, []));
    if st.Err? then Err(st.error)
    else if st.value.parity != 0 then Err(ParenthesisParity)
    else if st.value.start == -1 then Ok(st.value.subs)
    else Ok(st.value.subs + [s[st.value.start..]])
  }

  lemma {:induction false} ScannedLast(s: string, op: char, i: nat, j: nat, st: Scan)
    requires i <= j < |s| && ScanOk(st, i)
    ensures var r := Scanned(s, op, i, j, st);
            Scanned(s, op, i, j + 1, st) == if r.Err? then r else Step(s, op, j, r.value)
    decreases j - i
  {
    if i < j {
      var next := Step(s, op, i, st);
      if next.Ok? {
        ScannedLast(s, op, i + 1, j, next.value);
      }
    } else {
      var next := Step(s, op, i, st);
      assert next.Ok? ==> Scanned(s, op, i + 1, i + 1, next.value) == next;
    }
  }

  method SingleParse(formula: string, op: char) returns (r: Result<seq<string>>)
    ensures r == Parsed(formula, op)
  {
    hide BelongsToName;
    var start, parity := -1, 0;
    var subs: seq<string> := [];
    ghost var st0 := Scan(-1, 0, []);
    for i := 0 to |formula|
      invariant ScanOk(Scan(start, parity, subs), i)
      invariant Scanned(formula, op, 0, i, st0) == Ok(Scan(start, parity, subs))
    {
      ScannedLast(formula, op, 0, i, st0);
      ghost var st := Scan(start, parity, subs);
      var c := formula[i];
      if c == ')' {
        parity := parity - 1;
      } else if c == '(' {
        parity := parity + 1;
        if start == -1 {
          start := i;
        }
      } else if parity == 0 {
        if start == -1 {
          if BelongsToName(c) || c == '!' {
            start := i;
          }
        } else if !(BelongsToName(c) || c == '!') {
          if op == c {
            subs := subs + [formula[start..i]];
            start := i + 1;
          } else if c != '&' && c != '|' {
            ScanStays(formula, op, i + 1, st0);
            return Err(UnknownOperator);
          }
        }
      }
    }
    if start != -1 {
      subs := subs + [formula[start..]];
    }
    if parity != 0 {
      return Err(ParenthesisParity);
    }
    return Ok(subs);
  }

  /** An error while scanning a prefix is the error of the whole scan. */
  lemma ScanStays(s: string, op: char, j: nat, st: Scan)
    requires j <= |s| && ScanOk(st, 0) && Scanned(s, op, 0, j, st).Err?
    ensures Scanned(s, op, 0, |s|, st) == Scanned(s, op, 0, j, st)
  {
    ScannedSplit(s, op, 0, j, |s|, st);
  }

  lemma {:induction false} ScannedSplit(s: string, op: char, i: nat, j: nat, k: nat, st: Scan)
    requires i <= j <= k <= |s| && ScanOk(st, i)
    ensures var r := Scanned(s, op, i, j, st);
            Scanned(s, op, i, k, st) == if r.Err? then r else Scanned(s, op, j, k, r.value)
    decreases j - i
  {
    if i < j {
      var next := Step(s, op, i, st);
      if next.Ok? {
        ScannedSplit(s, op, i + 1, j, k, next.value);
      }
    }
  }

  // ----- Evaluating -----

  /** Evaluation of any string; the recursion always ends because every call is on a shorter one. */
  function Resolved(source: string, val: Valuation): Result<bool>
    decreases |source|, 2, 0
  {
    ResolvedRec(WithoutSpaces(source), val)
  }

  function ResolvedRec(source: string, val: Valuation): Result<bool>
    decreases |source|, 1, 0
  {
    if source == [] then Err(EmptySubExpression)
    else
      var ors := Parsed(source, '|');
      if ors.Err? then Err(ors.error)
      else if |ors.value| >= 2 then ResolvedAll(ors.value, val, false, |source|)
      else
        var ands := if |ors.value| == 1 then Parsed(source, '&') else ors;
        if ands.Err? then Err(ands.error)
        else if |ands.value| == 0 then Err(NotAFormula)
        else if |ands.value| >= 2 then ResolvedAll(ands.value, val, true, |source|)
        else ResolvedOne(source, val)
  }

  /** No binary operator at the top level. */
  function ResolvedOne(source: string, val: Valuation): Result<bool>
    requires source != []
    decreases |source|, 0, 0
  {
    if source[0] == '!' then
      var r := Resolved(source[1..], val);
      if r.Ok? then Ok(!r.value) else r
    else if source[0] == '(' then Resolved(if |source| >= 2 then source[1..|source| - 1] else [], val)
    else if source == "1" then Ok(true)
    else if source == "0" then Ok(false)
    else if source in val then Ok(val[source])
    else Err(VariableNotFound)
  }

  /** All of the subexpressions, joined by and (conj) or by or; the first error is the result. */
  function ResolvedAll(subs: seq<string>, val: Valuation, conj: bool, n: nat): Result<bool>
    requires forall k :: 0 <= k < |subs| ==> |subs[k]| < n
    decreases n, 0, |subs|
  {
    if subs == [] then Ok(conj)
    else
      var first := Resolved(subs[0], val);
      if first.Err? then first
      else
        var rest := ResolvedAll(subs[1..], val, conj, n);
        if rest.Err? then rest else Ok(if conj then first.value && rest.value else first.value || rest.value)
  }

  method Resolve(source: string, val: Valuation) returns (r: Result<bool>)
    ensures r == Resolved(source, val)
    decreases |source|, 2, 0
  {
    var stripped := RemoveWhitespaces(source);
    r := ResolveRec(stripped, val);
  }

  method ResolveRec(source: string, val: Valuation) returns (r: Result<bool>)
    ensures r == ResolvedRec(source, val)
    decreases |source|, 1, 0
  {
    if source == [] {
      return Err(EmptySubExpression);
    }
    var conj := false;
    var subs := SingleParse(source, '|');
    if subs.Err? {
      return Err(subs.error);
    }
    if |subs.value| == 1 {
      conj := true;
      subs := SingleParse(source, '&');
      if subs.Err? {
        return Err(subs.error);
      }
    }
    if |subs.value| == 0 {
      return Err(NotAFormula);
    }
    if |subs.value| >= 2 {
      r := ResolveAll(subs.value, val, conj, |source|);
      return;
    }
    if source[0] == '!' {
      r := Resolve(source[1..], val);
      if r.Ok? {
        r := Ok(!r.value);
      }
    } else if source[0] == '(' {
      r := Resolve(if |source| >= 2 then source[1..|source| - 1] else [], val);
    } else if source == "1" {
      r := Ok(true);
    } else if source == "0" {
      r := Ok(false);
    } else if source in val {
      r := Ok(val[source]);
    } else {
      r := Err(VariableNotFound);
    }
  }

  /** The accumulation loop over the subexpressions. */
  method ResolveAll(subs: seq<string>, val: Valuation, conj: bool, ghost n: nat) returns (r: Result<bool>)
    requires forall k :: 0 <= k < |subs| ==> |subs[k]| < n
    ensures r == ResolvedAll(subs, val, conj, n)
    decreases n, 0, 0
  {
    hide Resolved;
    var result := conj;
    ghost var whole := ResolvedAll(subs, val, conj, n);
    assert subs[0..] == subs;
    for i := 0 to |subs|
      invariant whole == Joined(result, ResolvedAll(subs[i..], val, conj, n), conj)
    {
      assert subs[i..][1..] == subs[i + 1..];
      var one := Resolve(subs[i], val);
      if one.Err? {
        return one;
      }
      result := if conj then result && one.value else result || one.value;
    }
    r := Ok(result);
  }

  function Joined(result: bool, rest: Result<bool>, conj: bool): Result<bool> {
    if rest.Err? then rest else Ok(if conj then result && rest.value else result || rest.value)
  }
}
