/** Call extraction in internal/releasebundle/swiftmanifest.go: balanced, string-aware, complete. */
module SwiftCalls {
  import opened Wrappers
  import opened SwiftScanner

  // ---- positions outside literals ------------------------------------------------

  /** The next position of a scan that steps over literals whole. */
  function Over(raw: string, i: nat): (j: nat)
    requires i < |raw|
    ensures i < j <= |raw|
  {
    LiteralBounds(raw, i);
    var lit := LiteralAt(raw, i);
    if lit.Closed? then lit.end else i + 1
  }

  /** Does a scan from i visit p? Then p is not inside a literal the scan has stepped over. */
  ghost predicate Visits(raw: string, i: nat, p: nat)
    decreases |raw| - i
  {
    i == p || (i < p && i < |raw| && Visits(raw, Over(raw, i), p))
  }

  lemma {:induction false} VisitsJoin(raw: string, i: nat, j: nat, p: nat)
    requires Visits(raw, i, j) && Visits(raw, j, p)
    ensures Visits(raw, i, p)
    decreases |raw| - i
  {
    if i != j { VisitsForward(raw, j, p); VisitsJoin(raw, Over(raw, i), j, p); }
  }

  lemma {:induction false} VisitsForward(raw: string, i: nat, p: nat)
    requires Visits(raw, i, p)
    ensures i <= p
  {}

  /** A scan's path is a line: two visited positions are visited one from the other. */
  lemma {:induction false} VisitsInOrder(raw: string, i: nat, j: nat, p: nat)
    requires Visits(raw, i, j) && Visits(raw, i, p) && j <= p
    ensures Visits(raw, j, p)
    decreases |raw| - i
  {
    if i != j { VisitsInOrder(raw, Over(raw, i), j, p); }
  }

  predicate Plain(c: char) { c != '"' && c != '#' }

  lemma {:induction false} VisitsPlain(raw: string, i: nat, j: nat)
    requires i <= j <= |raw| && forall k :: i <= k < j ==> Plain(raw[k])
    ensures Visits(raw, i, j)
    decreases j - i
  {
    if i < j { VisitsPlain(raw, i + 1, j); }
  }

  // ---- balanced parentheses --------------------------------------------------------

  function Paren(raw: string, i: nat): int
    requires i < |raw|
  {
    if LiteralAt(raw, i) != NoLiteral then 0 else if raw[i] == '(' then 1 else if raw[i] == ')' then -1 else 0
  }

  /** How many parentheses opened minus closed between two visited positions, literals not counted. */
  ghost function Level(raw: string, i: nat, p: nat): int
    decreases |raw| - i
  {
    if i >= p || i >= |raw| then 0 else Paren(raw, i) + Level(raw, Over(raw, i), p)
  }

  /** Just past the parenthesis that closes `depth` open ones, if there is one. */
  function BalancedEnd(raw: string, i: nat, depth: nat): Option<nat>
    decreases |raw| - i
  {
    if i >= |raw| then None else
      match LiteralAt(raw, i)
      case Refused => None
      case Closed(_) => BalancedEnd(raw, Over(raw, i), depth)
      case NoLiteral =>
        if raw[i] == '(' then BalancedEnd(raw, i + 1, depth + 1)
        else if raw[i] == ')' then if depth <= 1 then Some(i + 1) else BalancedEnd(raw, i + 1, depth - 1)
        else BalancedEnd(raw, i + 1, depth)
  }

  method SwiftBalancedCallEnd(raw: string, start: nat) returns (r: Option<nat>)
    ensures r == BalancedEnd(raw, start, 1)
  {
    var depth := 1;
    var i := start;
    while i < |raw|
      invariant depth >= 1 && BalancedEnd(raw, start, 1) == BalancedEnd(raw, i, depth)
    {
      var lit := SwiftStringEnd(raw, i);
      if lit == Refused { return None; }
      if lit.Closed? {
        LiteralBounds(raw, i);
        i := lit.end;
        continue;
      }
      if raw[i] == '(' {
        depth := depth + 1;
      } else if raw[i] == ')' {
        depth := depth - 1;
        if depth == 0 { return Some(i + 1); }
      }
      i := i + 1;
    }
    return None;
  }

  /** The arguments from i to the closing parenthesis at c: never closed early, and closed at c. */
  ghost predicate Balanced(raw: string, i: nat, c: nat, depth: int) {
    && c < |raw| && raw[c] == ')' && LiteralAt(raw, c) == NoLiteral
    && Visits(raw, i, c) && depth + Level(raw, i, c) == 1
    && forall q: nat :: Visits(raw, i, q) && q <= c ==> depth + Level(raw, i, q) >= 1
  }

  lemma {:induction false} BalancedEndIsBalanced(raw: string, i: nat, depth: nat)
    requires depth >= 1
    ensures var e := BalancedEnd(raw, i, depth); e.Some? ==> i < e.value <= |raw| && Balanced(raw, i, e.value - 1, depth)
    decreases |raw| - i
  {
    if i >= |raw| || BalancedEnd(raw, i, depth).None? { return; }
    var j := Over(raw, i);
    var d := Paren(raw, i);
    if depth + d == 0 { return; }
    BalancedEndIsBalanced(raw, j, depth + d);
    var c := BalancedEnd(raw, i, depth).value - 1;
    forall q: nat | Visits(raw, i, q) && q <= c ensures depth + Level(raw, i, q) >= 1 {
      if q != i { assert Visits(raw, j, q); }
    }
  }

  // ---- calls ------------------------------------------------------------------------

  /** A call: the token at `at`, its arguments raw[open..close], closed at `close`. */
  datatype Call = Call(at: nat, open: nat, close: nat)

  predicate HasPrefix(raw: string, i: nat, token: string) {
    i + |token| <= |raw| && raw[i..i + |token|] == token
  }

  predicate Space(c: char) { c == ' ' || c == '\t' || c == '\n' || c == '\r' }

  function SkipSpace(raw: string, i: nat): (j: nat)
    requires i <= |raw|
    ensures i <= j <= |raw|
    decreases |raw| - i
  {
    if i < |raw| && Space(raw[i]) then SkipSpace(raw, i + 1) else i
  }

  /** Where the argument list of a call that starts here begins. */
  function ArgumentStart(raw: string, token: string, i: nat): Option<nat> {
    if !HasPrefix(raw, i, token) then None else
      var p := SkipSpace(raw, i + |token|);
      if p < |raw| && raw[p] == '(' then Some(p + 1) else None
  }

  function Calls(raw: string, token: string, i: nat): Option<seq<Call>>
    decreases |raw| - i
  {
    if i >= |raw| then Some([]) else
      match LiteralAt(raw, i)
      case Refused => None
      case Closed(_) => Calls(raw, token, Over(raw, i))
      case NoLiteral =>
        var open := ArgumentStart(raw, token, i);
        if open.None? then Calls(raw, token, i + 1) else
          var end := BalancedEnd(raw, open.value, 1);
          if end.None? then None
          else if !(i < end.value <= |raw|) then None
          else
            var rest := Calls(raw, token, end.value);
            if rest.None? then None else Some([Call(i, open.value, end.value - 1)] + rest.value)
  }

  method FindArguments(raw: string, token: string, i: nat) returns (r: Option<nat>)
    ensures r == ArgumentStart(raw, token, i)
  {
    if !HasPrefix(raw, i, token) { return None; }
    var openParen := i + |token|;
    while openParen < |raw| && Space(raw[openParen])
      invariant i + |token| <= openParen <= |raw|
      invariant SkipSpace(raw, i + |token|) == SkipSpace(raw, openParen)
    {
      openParen := openParen + 1;
    }
    if openParen == |raw| || raw[openParen] != '(' { return None; }
    return Some(openParen + 1);
  }

  method SwiftCallsOf(raw: string, token: string) returns (r: Option<seq<Call>>)
    ensures r == Calls(raw, token, 0)
  {
    var calls: seq<Call> := [];
    var i := 0;
    PrependNone(Calls(raw, token, 0));
    while i < |raw|
      invariant i <= |raw|
      invariant Calls(raw, token, 0) == Prepend(calls, Calls(raw, token, i))
    {
      var lit := SwiftStringEnd(raw, i);
      if lit == Refused { return None; }
      if lit.Closed? {
        LiteralBounds(raw, i);
        i := lit.end;
        continue;
      }
      var open := FindArguments(raw, token, i);
      if open.None? { i := i + 1; continue; }
      var end := SwiftBalancedCallEnd(raw, open.value);
      if end.None? { return None; }
      ArgumentsFollow(raw, token, i);
      BalancedEndIsBalanced(raw, open.value, 1);
      PrependOne(calls, Call(i, open.value, end.value - 1), Calls(raw, token, end.value));
      calls := calls + [Call(i, open.value, end.value - 1)];
      i := end.value;
    }
    assert calls + [] == calls;
    return Some(calls);
  }

  lemma ArgumentsFollow(raw: string, token: string, i: nat)
    ensures var o := ArgumentStart(raw, token, i); o.Some? ==> i < o.value <= |raw|
  {}

  lemma PrependNone(rest: Option<seq<Call>>)
    ensures Prepend([], rest) == rest
  {
    if rest.Some? { assert [] + rest.value == rest.value; }
  }

  function Prepend(calls: seq<Call>, rest: Option<seq<Call>>): Option<seq<Call>> {
    if rest.None? then None else Some(calls + rest.value)
  }

  lemma PrependOne(calls: seq<Call>, c: Call, rest: Option<seq<Call>>)
    ensures Prepend(calls, Prepend([c], rest)) == Prepend(calls + [c], rest)
  {
    if rest.Some? { assert calls + ([c] + rest.value) == (calls + [c]) + rest.value; }
  }

  // ---- what counts as a call --------------------------------------------------------------

  ghost predicate AllBlank(w: string) { forall k :: 0 <= k < |w| ==> w[k] in " \t\n\r" }

  /** The token, any blanks, and an opening parenthesis, up to o. */
  ghost predicate OpensCall(raw: string, token: string, i: nat, o: nat) {
    && i + |token| < o <= |raw| && raw[i..i + |token|] == token && AllBlank(raw[i + |token|..o - 1]) && raw[o - 1] == '('
  }

  lemma {:induction false} BlanksAreSkipped(raw: string, i: nat, e: nat)
    requires i <= e < |raw| && AllBlank(raw[i..e]) && raw[e] == '('
    ensures SkipSpace(raw, i) == e
    decreases e - i
  {
    if i < e {
      assert raw[i] == raw[i..e][0];
      var rest := raw[i + 1..e];
      forall k | 0 <= k < |rest| ensures rest[k] in " \t\n\r" { assert rest[k] == raw[i..e][k + 1]; }
      BlanksAreSkipped(raw, i + 1, e);
    }
  }

  lemma {:induction false} SkippedAreBlanks(raw: string, i: nat)
    requires i <= |raw|
    ensures AllBlank(raw[i..SkipSpace(raw, i)])
    decreases |raw| - i
  {
    if i < |raw| && Space(raw[i]) {
      SkippedAreBlanks(raw, i + 1);
      var e := SkipSpace(raw, i);
      forall k | 0 <= k < e - i ensures raw[i..e][k] in " \t\n\r" { if k > 0 { assert raw[i..e][k] == raw[i + 1..e][k - 1]; } }
    }
  }

  /** Arguments start exactly after the token, blanks of the four kinds, and a parenthesis. */
  lemma CallOpensIff(raw: string, token: string, i: nat, o: nat)
    ensures ArgumentStart(raw, token, i) == Some(o) <==> OpensCall(raw, token, i, o)
  {
    if OpensCall(raw, token, i, o) { BlanksAreSkipped(raw, i + |token|, o - 1); }
    if HasPrefix(raw, i, token) { SkippedAreBlanks(raw, i + |token|); }
  }

  // ---- what extraction promises --------------------------------------------------------

  /** One well-formed call at or after i. */
  ghost predicate IsCall(raw: string, token: string, i: nat, c: Call) {
    && i <= c.at < c.open <= c.close && Visits(raw, i, c.at) && LiteralAt(raw, c.at) == NoLiteral
    && ArgumentStart(raw, token, c.at) == Some(c.open) && Balanced(raw, c.open, c.close, 1)
  }

  ghost predicate InOrder(cs: seq<Call>) { forall k, l :: 0 <= k < l < |cs| ==> cs[k].close < cs[l].at }

  lemma {:induction false} SkipSpaceSpaces(raw: string, i: nat)
    requires i <= |raw|
    ensures forall k :: i <= k < SkipSpace(raw, i) ==> Space(raw[k])
    decreases |raw| - i
  {
    if i < |raw| && Space(raw[i]) { SkipSpaceSpaces(raw, i + 1); }
  }

  /** The scan walks from a call's token to its arguments: nothing on the way opens a literal. */
  lemma HeadIsVisited(raw: string, token: string, i: nat)
    requires (forall k :: 0 <= k < |token| ==> Plain(token[k])) && ArgumentStart(raw, token, i).Some?
    ensures i < ArgumentStart(raw, token, i).value <= |raw| && Visits(raw, i, ArgumentStart(raw, token, i).value)
  {
    var m := i + |token|;
    SkipSpaceSpaces(raw, m);
    forall k | i <= k < m ensures Plain(raw[k]) { assert raw[k] == raw[i..m][k - i] == token[k - i]; }
    VisitsPlain(raw, i, ArgumentStart(raw, token, i).value);
  }

  lemma {:induction false} CallsVisit(raw: string, token: string, i: nat, j: nat, c: Call)
    requires Visits(raw, i, j) && IsCall(raw, token, j, c)
    ensures IsCall(raw, token, i, c)
  {
    VisitsJoin(raw, i, j, c.at);
    VisitsForward(raw, i, j);
  }

  /** The scan goes on from just past the call it has extracted. */
  lemma CallIsVisited(raw: string, token: string, i: nat)
    requires (forall k :: 0 <= k < |token| ==> Plain(token[k])) && i < |raw| && ArgumentStart(raw, token, i).Some?
    requires BalancedEnd(raw, ArgumentStart(raw, token, i).value, 1).Some?
    ensures var o := ArgumentStart(raw, token, i).value;
      var e := BalancedEnd(raw, o, 1).value;
      i < o < e <= |raw| && Visits(raw, i, e) && Balanced(raw, o, e - 1, 1)
  {
    var o := ArgumentStart(raw, token, i).value;
    HeadIsVisited(raw, token, i);
    BalancedEndIsBalanced(raw, o, 1);
    var e := BalancedEnd(raw, o, 1).value;
    assert Over(raw, e - 1) == e;
    assert Visits(raw, e - 1, e);
    VisitsJoin(raw, o, e - 1, e);
    VisitsJoin(raw, i, o, e);
  }

  /** A token call with balanced arguments, wherever the scan came from. */
  ghost predicate IsTokenCall(raw: string, token: string, c: Call) {
    && c.at < c.open <= c.close < |raw| && LiteralAt(raw, c.at) == NoLiteral
    && ArgumentStart(raw, token, c.at) == Some(c.open) && Balanced(raw, c.open, c.close, 1)
  }

  lemma OneCallMore(raw: string, token: string, c: Call, rest: seq<Call>)
    requires IsTokenCall(raw, token, c) && InOrder(rest)
    requires forall k :: 0 <= k < |rest| ==> c.close < rest[k].at && IsTokenCall(raw, token, rest[k])
    ensures var all := [c] + rest;
      InOrder(all) && forall k :: 0 <= k < |all| ==> c.at <= all[k].at && IsTokenCall(raw, token, all[k])
  {}

  /** For any token: every returned range is a call with balanced arguments; they come in order, without overlap. */
  lemma {:induction false} CallsAreCalls(raw: string, token: string, i: nat)
    ensures var r := Calls(raw, token, i);
      r.Some? ==> InOrder(r.value) && forall k :: 0 <= k < |r.value| ==> i <= r.value[k].at && IsTokenCall(raw, token, r.value[k])
    decreases |raw| - i
  {
    var r := Calls(raw, token, i);
    if i >= |raw| || r.None? { return; }
    var open := ArgumentStart(raw, token, i);
    if LiteralAt(raw, i) == NoLiteral && open.Some? {
      ArgumentsFollow(raw, token, i);
      BalancedEndIsBalanced(raw, open.value, 1);
      var e := BalancedEnd(raw, open.value, 1).value;
      CallsAreCalls(raw, token, e);
      OneCallMore(raw, token, Call(i, open.value, e - 1), Calls(raw, token, e).value);
    } else {
      CallsAreCalls(raw, token, Over(raw, i));
    }
  }

  /** For a token that opens no literal, the calls also lie on the scan's path: none is inside a literal. */
  lemma {:induction false} CallsAreSound(raw: string, token: string, i: nat)
    requires forall k :: 0 <= k < |token| ==> Plain(token[k])
    ensures var r := Calls(raw, token, i);
      r.Some? ==> InOrder(r.value) && forall k :: 0 <= k < |r.value| ==> IsCall(raw, token, i, r.value[k])
    decreases |raw| - i
  {
    var r := Calls(raw, token, i);
    if i >= |raw| || r.None? { return; }
    var open := ArgumentStart(raw, token, i);
    if LiteralAt(raw, i) == NoLiteral && open.Some? {
      CallIsVisited(raw, token, i);
      var e := BalancedEnd(raw, open.value, 1).value;
      CallsAreSound(raw, token, e);
      var rest := Calls(raw, token, e).value;
      forall k | 0 <= k < |rest| ensures IsCall(raw, token, i, rest[k]) { CallsVisit(raw, token, i, e, rest[k]); }
      assert r.value == [Call(i, open.value, e - 1)] + rest;
      VisitsForward(raw, i, i);
    } else {
      var j := Over(raw, i);
      CallsAreSound(raw, token, j);
      assert Visits(raw, i, j);
      forall k | 0 <= k < |r.value| ensures IsCall(raw, token, i, r.value[k]) { CallsVisit(raw, token, i, j, r.value[k]); }
    }
  }

  /** Every call outside literals is returned, or lies inside one that is. */
  lemma {:induction false} CallsAreComplete(raw: string, token: string, i: nat, p: nat) returns (k: nat)
    requires (forall k :: 0 <= k < |token| ==> Plain(token[k])) && Calls(raw, token, i).Some?
    requires Visits(raw, i, p) && p < |raw| && LiteralAt(raw, p) == NoLiteral && ArgumentStart(raw, token, p).Some?
    ensures var cs := Calls(raw, token, i).value; k < |cs| && cs[k].at <= p <= cs[k].close
    decreases |raw| - i
  {
    VisitsForward(raw, i, p);
    var open := ArgumentStart(raw, token, i);
    if LiteralAt(raw, i) == NoLiteral && open.Some? {
      CallIsVisited(raw, token, i);
      var e := BalancedEnd(raw, open.value, 1).value;
      if p < e { return 0; }
      VisitsInOrder(raw, i, e, p);
      k := CallsAreComplete(raw, token, e, p);
      k := k + 1;
    } else {
      k := CallsAreComplete(raw, token, Over(raw, i), p);
    }
  }
}
