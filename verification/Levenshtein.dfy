/** The edit distance behind the did-you-mean hints, computed in one row. */
module Levenshtein {

  function Min(x: nat, y: nat): nat {
    if x < y then x else y
  }

  /** Recursive distance between the first i characters of a and the first j of b. */
  function Distance(a: string, i: nat, b: string, j: nat): (d: nat)
    requires i <= |a| && j <= |b|
    decreases i + j
  {
    if i == 0 then j
    else if j == 0 then i
    else Min(Min(Distance(a, i - 1, b, j) + 1, Distance(a, i, b, j - 1) + 1),
             Distance(a, i - 1, b, j - 1) + (if a[i - 1] == b[j - 1] then 0 else 1))
  }

  // ---- what the distance means -------------------------------------------------------------

  datatype Edit = Keep | Replace | Insert | Remove

  function Cost(script: seq<Edit>): (c: nat) {
    if script == [] then 0 else Cost(script[..|script| - 1]) + (if script[|script| - 1].Keep? then 0 else 1)
  }

  /** The script, read from left to right, rewrites the first i characters of a into the first j of b. */
  ghost predicate Rewrites(script: seq<Edit>, a: string, i: nat, b: string, j: nat)
    requires i <= |a| && j <= |b|
  {
    if script == [] then i == 0 && j == 0
    else
      var rest := script[..|script| - 1];
      match script[|script| - 1]
      case Keep => 0 < i && 0 < j && a[i - 1] == b[j - 1] && Rewrites(rest, a, i - 1, b, j - 1)
      case Replace => 0 < i && 0 < j && Rewrites(rest, a, i - 1, b, j - 1)
      case Insert => 0 < j && Rewrites(rest, a, i, b, j - 1)
      case Remove => 0 < i && Rewrites(rest, a, i - 1, b, j)
  }

  /** No script that rewrites a into b is cheaper than the distance ... */
  lemma {:induction false} NoScriptIsCheaper(script: seq<Edit>, a: string, i: nat, b: string, j: nat)
    requires i <= |a| && j <= |b| && Rewrites(script, a, i, b, j)
    ensures Distance(a, i, b, j) <= Cost(script)
    decreases |script|
  {
    if script != [] {
      var rest := script[..|script| - 1];
      match script[|script| - 1]
      case Keep => NoScriptIsCheaper(rest, a, i - 1, b, j - 1);
      case Replace => NoScriptIsCheaper(rest, a, i - 1, b, j - 1);
      case Insert => NoScriptIsCheaper(rest, a, i, b, j - 1);
        AtMostOneMore(a, i, b, j);
      case Remove => NoScriptIsCheaper(rest, a, i - 1, b, j);
        AtMostOneMore(a, i, b, j);
    }
  }

  /** One more character on either side costs at most one more edit. */
  lemma AtMostOneMore(a: string, i: nat, b: string, j: nat)
    requires i <= |a| && j <= |b|
    ensures 0 < i ==> Distance(a, i, b, j) <= Distance(a, i - 1, b, j) + 1
    ensures 0 < j ==> Distance(a, i, b, j) <= Distance(a, i, b, j - 1) + 1
  {
    if i == 0 || j == 0 { Edges(a, i, b, j); }
  }

  lemma Edges(a: string, i: nat, b: string, j: nat)
    requires i <= |a| && j <= |b|
    ensures Distance(a, 0, b, j) == j && Distance(a, i, b, 0) == i
  {
  }

  /** ... and some script costs exactly that. */
  lemma {:induction false} CheapestScript(a: string, i: nat, b: string, j: nat) returns (script: seq<Edit>)
    requires i <= |a| && j <= |b|
    ensures Rewrites(script, a, i, b, j) && Cost(script) == Distance(a, i, b, j)
    decreases i + j
  {
    var d := Distance(a, i, b, j);
    if i == 0 && j == 0 {
      script := [];
    } else if 0 < i && (j == 0 || d == Distance(a, i - 1, b, j) + 1) {
      script := CheapestScript(a, i - 1, b, j);
      script := Append(script, Remove);
    } else if 0 < j && (i == 0 || d == Distance(a, i, b, j - 1) + 1) {
      script := CheapestScript(a, i, b, j - 1);
      script := Append(script, Insert);
    } else {
      script := CheapestScript(a, i - 1, b, j - 1);
      script := Append(script, if a[i - 1] == b[j - 1] then Keep else Replace);
    }
  }

  lemma Append(script: seq<Edit>, e: Edit) returns (longer: seq<Edit>)
    ensures longer == script + [e] && longer[..|longer| - 1] == script
    ensures Cost(longer) == Cost(script) + (if e.Keep? then 0 else 1)
  {
    longer := script + [e];
    assert longer[..|longer| - 1] == script;
  }

  lemma Unfold(a: string, i: nat, b: string, j: nat)
    requires 0 < i <= |a| && 0 < j <= |b|
    ensures Distance(a, i, b, j) ==
      Min(Min(Distance(a, i - 1, b, j) + 1, Distance(a, i, b, j - 1) + 1),
          Distance(a, i - 1, b, j - 1) + (if a[i - 1] == b[j - 1] then 0 else 1))
  {
  }

  // ---- the one-row computation -------------------------------------------------------------

  /** The row holds line i up to column j and line i - 1 beyond. */
  ghost predicate RowAt(row: seq<nat>, a: string, i: nat, b: string, j: nat)
    requires 0 < i <= |a| && j <= |b| && |row| == |b| + 1
  {
    && (forall k :: 0 <= k <= j ==> row[k] == Distance(a, i, b, k))
    && (forall k :: j < k <= |b| ==> row[k] == Distance(a, i - 1, b, k))
  }

  method Lev(a: string, b: string) returns (d: nat)
    ensures d == Distance(a, |a|, b, |b|)
  {
    var n := |b|;
    var row := new nat[n + 1];
    for j := 0 to n + 1
      invariant forall k :: 0 <= k < j ==> row[k] == k
    {
      row[j] := j;
    }
    for i := 1 to |a| + 1
      invariant forall k :: 0 <= k <= n ==> row[k] == Distance(a, i - 1, b, k)
    {
      NextLine(a, i, b, row);
    }
    d := row[n];
  }

  /** From line i - 1 of the table to line i, in place; `prev` is the diagonal the row no longer holds. */
  method NextLine(a: string, i: nat, b: string, row: array<nat>)
    requires 0 < i <= |a| && row.Length == |b| + 1
    requires forall k :: 0 <= k <= |b| ==> row[k] == Distance(a, i - 1, b, k)
    modifies row
    ensures forall k :: 0 <= k <= |b| ==> row[k] == Distance(a, i, b, k)
  {
    hide Distance;
    Edges(a, i, b, 0);
    var prev := row[0];
    row[0] := i;
    for j := 1 to |b| + 1
      invariant RowAt(row[..], a, i, b, j - 1) && prev == Distance(a, i - 1, b, j - 1)
    {
      Unfold(a, i, b, j);
      var t := row[j];
      row[j] := Min(Min(row[j] + 1, row[j - 1] + 1), prev + (if a[i - 1] == b[j - 1] then 0 else 1));
      prev := t;
    }
  }
}
