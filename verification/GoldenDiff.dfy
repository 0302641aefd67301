// The line diff behind the API golden check: a longest-common-subsequence table and
// the greedy walk over it.
module GoldenDiff {

  type Lines = seq<string>

  /******* Longest common subsequences *******/

  // `c` is `s` with some elements left out.
  predicate Subsequence(c: Lines, s: Lines) {
    c == [] || (s != [] && ((c[0] == s[0] && Subsequence(c[1..], s[1..])) || Subsequence(c, s[1..])))
  }

  predicate Common(c: Lines, a: Lines, b: Lines) {
    Subsequence(c, a) && Subsequence(c, b)
  }

  // The table's recurrence.
  function Lcs(a: Lines, b: Lines): nat {
    if a == [] || b == [] then 0
    else if a[0] == b[0] then Lcs(a[1..], b[1..]) + 1
    else if Lcs(a[1..], b) >= Lcs(a, b[1..]) then Lcs(a[1..], b)
    else Lcs(a, b[1..])
  }

  lemma {:induction false} SubsequenceTail(c: Lines, s: Lines)
    requires Subsequence(c, s) && c != []
    ensures Subsequence(c[1..], s)
    ensures s != [] && Subsequence(c[1..], s[1..])
    decreases |s|
  {
    if c[0] == s[0] && Subsequence(c[1..], s[1..]) {
    } else {
      SubsequenceTail(c, s[1..]);
    }
  }

  // The recurrence's number is the greatest length of a common subsequence: one of
  // that length exists, and none is longer.
  lemma LcsIsLongest(a: Lines, b: Lines)
    ensures exists c :: Common(c, a, b) && |c| == Lcs(a, b)
    ensures forall c :: Common(c, a, b) ==> |c| <= Lcs(a, b)
  {
    var c := LcsWitness(a, b);
    forall c | Common(c, a, b) ensures |c| <= Lcs(a, b) { LcsBounds(c, a, b); }
  }

  lemma {:induction false} LcsWitness(a: Lines, b: Lines) returns (c: Lines)
    ensures Common(c, a, b) && |c| == Lcs(a, b)
    decreases |a| + |b|
  {
    if a == [] || b == [] {
      c := [];
    } else if a[0] == b[0] {
      var rest := LcsWitness(a[1..], b[1..]);
      c := [a[0]] + rest;
      assert c[1..] == rest;
    } else if Lcs(a[1..], b) >= Lcs(a, b[1..]) {
      c := LcsWitness(a[1..], b);
    } else {
      c := LcsWitness(a, b[1..]);
    }
  }

  lemma {:induction false} LcsBounds(c: Lines, a: Lines, b: Lines)
    requires Common(c, a, b)
    ensures |c| <= Lcs(a, b)
    decreases |a| + |b|
  {
    if c != [] {
      if a[0] == b[0] {
        SubsequenceTail(c, a);
        SubsequenceTail(c, b);
        LcsBounds(c[1..], a[1..], b[1..]);
      } else if c[0] != a[0] {
        LcsBounds(c, a[1..], b);
      } else {
        LcsBounds(c, a, b[1..]);
      }
    }
  }

  // lcsLengths: fill the table from the end.
  method LcsLengths(want: Lines, got: Lines) returns (lengths: array2<nat>)
    ensures fresh(lengths) && lengths.Length0 == |want| + 1 && lengths.Length1 == |got| + 1
    ensures forall i, j {:trigger lengths[i, j]} ::
              0 <= i <= |want| && 0 <= j <= |got| ==> lengths[i, j] == Lcs(want[i..], got[j..])
  {
    lengths := new nat[|want| + 1, |got| + 1]((i, j) => 0);
    for i := |want| downto 0
      invariant forall k, j {:trigger lengths[k, j]} ::
                i <= k <= |want| && 0 <= j <= |got| ==> lengths[k, j] == Lcs(want[k..], got[j..])
      invariant forall k :: 0 <= k <= |want| ==> lengths[k, |got|] == 0
    {
      for j := |got| downto 0
        invariant forall k, l {:trigger lengths[k, l]} ::
                  i < k <= |want| && 0 <= l <= |got| ==> lengths[k, l] == Lcs(want[k..], got[l..])
        invariant forall l {:trigger lengths[i, l]} ::
                  j <= l <= |got| ==> lengths[i, l] == Lcs(want[i..], got[l..])
        invariant forall k :: 0 <= k <= |want| ==> lengths[k, |got|] == 0
      {
        assert want[i..][1..] == want[i + 1..] && got[j..][1..] == got[j + 1..];
        if want[i] == got[j] {
          lengths[i, j] := lengths[i + 1, j + 1] + 1;
        } else if lengths[i + 1, j] >= lengths[i, j + 1] {
          lengths[i, j] := lengths[i + 1, j];
        } else {
          lengths[i, j] := lengths[i, j + 1];
        }
      }
    }
  }

  /******* The walk *******/

  datatype Edit = Keep(line: string) | Remove(line: string) | Insert(line: string)

  // The edits the walk makes.
  function Script(want: Lines, got: Lines): seq<Edit>
    decreases |want| + |got|
  {
    if want == [] && got == [] then []
    else if got == [] then [Remove(want[0])] + Script(want[1..], got)
    else if want == [] then [Insert(got[0])] + Script(want, got[1..])
    else if want[0] == got[0] then [Keep(want[0])] + Script(want[1..], got[1..])
    else if Lcs(want[1..], got) >= Lcs(want, got[1..]) then [Remove(want[0])] + Script(want[1..], got)
    else [Insert(got[0])] + Script(want, got[1..])
  }

  // What is printed for an edit: kept lines are silent.
  function Render(e: Edit): string {
    match e
    case Keep(_) => ""
    case Remove(line) => "- " + line + "\n"
    case Insert(line) => "+ " + line + "\n"
  }

  function RenderAll(script: seq<Edit>): string {
    if script == [] then "" else Render(script[0]) + RenderAll(script[1..])
  }

  // The lines a script starts from, ends with, keeps, and changes.
  function WantOf(script: seq<Edit>): Lines {
    if script == [] then [] else (if script[0].Insert? then [] else [script[0].line]) + WantOf(script[1..])
  }

  function GotOf(script: seq<Edit>): Lines {
    if script == [] then [] else (if script[0].Remove? then [] else [script[0].line]) + GotOf(script[1..])
  }

  function KeptOf(script: seq<Edit>): Lines {
    if script == [] then [] else (if script[0].Keep? then [script[0].line] else []) + KeptOf(script[1..])
  }

  function Changes(script: seq<Edit>): nat {
    if script == [] then 0 else (if script[0].Keep? then 0 else 1) + Changes(script[1..])
  }

  // The walk's script turns `want` into `got` with exactly |want| + |got| - 2 Lcs changes.
  lemma {:induction false} ScriptIsExact(want: Lines, got: Lines)
    ensures WantOf(Script(want, got)) == want && GotOf(Script(want, got)) == got
    ensures Changes(Script(want, got)) == |want| + |got| - 2 * Lcs(want, got)
    decreases |want| + |got|
  {
    if want == [] && got == [] {
    } else if got == [] {
      ScriptIsExact(want[1..], got);
    } else if want == [] {
      ScriptIsExact(want, got[1..]);
    } else if want[0] == got[0] {
      ScriptIsExact(want[1..], got[1..]);
    } else if Lcs(want[1..], got) >= Lcs(want, got[1..]) {
      ScriptIsExact(want[1..], got);
    } else {
      ScriptIsExact(want, got[1..]);
    }
  }

  // The kept lines of any script are common to both sides, and every other line is a change.
  lemma {:induction false} KeptIsCommon(script: seq<Edit>)
    ensures Common(KeptOf(script), WantOf(script), GotOf(script))
    ensures |WantOf(script)| + |GotOf(script)| == 2 * |KeptOf(script)| + Changes(script)
  {
    if script != [] {
      KeptIsCommon(script[1..]);
      var kept, want, got := KeptOf(script), WantOf(script), GotOf(script);
      if script[0].Keep? {
        assert kept[1..] == KeptOf(script[1..]) && want[1..] == WantOf(script[1..]) && got[1..] == GotOf(script[1..]);
      } else if script[0].Remove? {
        assert want[1..] == WantOf(script[1..]) && kept == KeptOf(script[1..]) && got == GotOf(script[1..]);
      } else {
        assert got[1..] == GotOf(script[1..]) && kept == KeptOf(script[1..]) && want == WantOf(script[1..]);
      }
    }
  }

  // No script between the same lines has fewer changes than the walk's.
  lemma ScriptIsMinimal(script: seq<Edit>)
    ensures Changes(Script(WantOf(script), GotOf(script))) <= Changes(script)
  {
    KeptIsCommon(script);
    LcsBounds(KeptOf(script), WantOf(script), GotOf(script));
    ScriptIsExact(WantOf(script), GotOf(script));
  }

  // Which shortest script the walk takes: it keeps equal first lines, and otherwise
  // removes before it inserts whenever some shortest script starts by removing.
  lemma WalkRemovesFirst(script: seq<Edit>)
    requires script != [] && Changes(script) == Changes(Script(WantOf(script), GotOf(script)))
    ensures var want, got := WantOf(script), GotOf(script);
            && Script(want, got) != []
            && (want != [] && got != [] && want[0] == got[0] ==> Script(want, got)[0] == Keep(want[0]))
            && (script[0].Remove? && (got == [] || want[0] != got[0]) ==> Script(want, got)[0] == Remove(want[0]))
  {
    var want, got := WantOf(script), GotOf(script);
    if script[0].Remove? && got != [] && want[0] != got[0] {
      assert WantOf(script[1..]) == want[1..] && GotOf(script[1..]) == got;
      ScriptIsMinimal(script[1..]);
      ScriptIsExact(want[1..], got);
      ScriptIsExact(want, got);
    }
  }

  // After its first edit the walk goes on as a walk over what is left.
  lemma WalkGoesOn(want: Lines, got: Lines)
    requires Script(want, got) != []
    ensures var rest := Script(want, got)[1..]; rest == Script(WantOf(rest), GotOf(rest))
  {
    var rest := Script(want, got)[1..];
    if got == [] {
      assert rest == Script(want[1..], got);
      ScriptIsExact(want[1..], got);
    } else if want == [] {
      assert rest == Script(want, got[1..]);
      ScriptIsExact(want, got[1..]);
    } else if want[0] == got[0] {
      assert rest == Script(want[1..], got[1..]);
      ScriptIsExact(want[1..], got[1..]);
    } else if Lcs(want[1..], got) >= Lcs(want, got[1..]) {
      assert rest == Script(want[1..], got);
      ScriptIsExact(want[1..], got);
    } else {
      assert rest == Script(want, got[1..]);
      ScriptIsExact(want, got[1..]);
    }
  }

  // Whether the walk drops a line of `want` rather than taking one of `got`.
  predicate Drops(want: Lines, got: Lines, i: nat, j: nat)
    requires i < |want| && j < |got|
  {
    Lcs(want[i + 1..], got[j..]) >= Lcs(want[i..], got[j + 1..])
  }

  // A quantifier over sealed facts is instantiated only where a proof names this.
  ghost predicate Unsealed(n: int) {
    true
  }

  ghost predicate IsRest(want: Lines, got: Lines, i: nat, j: nat, rest: string)
    requires i <= |want| && j <= |got|
  {
    forall n {:trigger Unsealed(n)} :: Unsealed(n) ==> rest == RenderAll(Script(want[i..], got[j..]))
  }

  // What is still to be printed at position (i, j) of the walk. Sealed, so that the
  // loops see only its first edit; RestIs says what it is.
  ghost function Rest(want: Lines, got: Lines, i: nat, j: nat): string
    requires i <= |want| && j <= |got|
  {
    assert IsRest(want, got, i, j, RenderAll(Script(want[i..], got[j..])));
    var rest :| IsRest(want, got, i, j, rest);
    rest
  }

  lemma RestIs(want: Lines, got: Lines, i: nat, j: nat)
    requires i <= |want| && j <= |got|
    ensures Rest(want, got, i, j) == RenderAll(Script(want[i..], got[j..]))
  {
    assert IsRest(want, got, i, j, Rest(want, got, i, j)) && Unsealed(0);
  }

  // The first edit of the rest, and what remains after it.
  lemma RestKeeps(want: Lines, got: Lines, i: nat, j: nat)
    requires i < |want| && j < |got| && want[i] == got[j]
    ensures Rest(want, got, i, j) == Rest(want, got, i + 1, j + 1)
  {
    RestIs(want, got, i, j);
    RestIs(want, got, i + 1, j + 1);
    assert want[i..][1..] == want[i + 1..] && got[j..][1..] == got[j + 1..];
    assert RenderAll(Script(want[i..], got[j..])) == "" + RenderAll(Script(want[i + 1..], got[j + 1..]));
  }

  lemma RestRemoves(want: Lines, got: Lines, i: nat, j: nat)
    requires i < |want| && j <= |got|
    requires j < |got| ==> want[i] != got[j] && Drops(want, got, i, j)
    ensures Rest(want, got, i, j) == Render(Remove(want[i])) + Rest(want, got, i + 1, j)
  {
    RestIs(want, got, i, j);
    RestIs(want, got, i + 1, j);
    assert want[i..][1..] == want[i + 1..];
    if j < |got| { assert got[j..][1..] == got[j + 1..]; }
    assert Script(want[i..], got[j..])[1..] == Script(want[i + 1..], got[j..]);
  }

  lemma RestInserts(want: Lines, got: Lines, i: nat, j: nat)
    requires i <= |want| && j < |got|
    requires i < |want| ==> want[i] != got[j] && !Drops(want, got, i, j)
    ensures Rest(want, got, i, j) == Render(Insert(got[j])) + Rest(want, got, i, j + 1)
  {
    RestIs(want, got, i, j);
    RestIs(want, got, i, j + 1);
    assert got[j..][1..] == got[j + 1..];
    if i < |want| { assert want[i..][1..] == want[i + 1..]; }
    assert Script(want[i..], got[j..])[1..] == Script(want[i..], got[j + 1..]);
  }

  ghost predicate IsOutput(buffer: string, rest: string, whole: string) {
    forall n {:trigger Unsealed(n)} :: Unsealed(n) ==> whole == buffer + rest
  }

  // The buffer followed by the rest, sealed as well.
  ghost function Output(buffer: string, rest: string): string {
    assert IsOutput(buffer, rest, buffer + rest);
    var whole :| IsOutput(buffer, rest, whole);
    whole
  }

  lemma OutputIs(buffer: string, rest: string)
    ensures Output(buffer, rest) == buffer + rest
  {
    assert IsOutput(buffer, rest, Output(buffer, rest)) && Unsealed(0);
  }

  lemma Prints(buffer: string, line: string, rest: string)
    ensures Output(buffer + line, rest) == Output(buffer, line + rest)
  {
    OutputIs(buffer + line, rest);
    OutputIs(buffer, line + rest);
  }

  // One step of the walk prints its edit and leaves the rest.
  lemma RemoveStep(buffer: string, want: Lines, got: Lines, i: nat, j: nat)
    requires i < |want| && j <= |got|
    requires j < |got| ==> want[i] != got[j] && Drops(want, got, i, j)
    ensures Output(buffer + Render(Remove(want[i])), Rest(want, got, i + 1, j)) == Output(buffer, Rest(want, got, i, j))
  {
    RestRemoves(want, got, i, j);
    Prints(buffer, Render(Remove(want[i])), Rest(want, got, i + 1, j));
  }

  lemma InsertStep(buffer: string, want: Lines, got: Lines, i: nat, j: nat)
    requires i <= |want| && j < |got|
    requires i < |want| ==> want[i] != got[j] && !Drops(want, got, i, j)
    ensures Output(buffer + Render(Insert(got[j])), Rest(want, got, i, j + 1)) == Output(buffer, Rest(want, got, i, j))
  {
    RestInserts(want, got, i, j);
    Prints(buffer, Render(Insert(got[j])), Rest(want, got, i, j + 1));
  }

  // The walk starts with everything to print and ends with nothing.
  lemma WalkSpans(buffer: string, want: Lines, got: Lines)
    ensures Output("", Rest(want, got, 0, 0)) == RenderAll(Script(want, got))
    ensures Output(buffer, Rest(want, got, |want|, |got|)) == buffer
  {
    assert want[0..] == want && got[0..] == got;
    RestIs(want, got, 0, 0);
    RestIs(want, got, |want|, |got|);
    OutputIs("", Rest(want, got, 0, 0));
    OutputIs(buffer, Rest(want, got, |want|, |got|));
  }

  method RenderGoldenDiff(want: Lines, got: Lines, lengths: array2<nat>) returns (buffer: string)
    requires lengths.Length0 == |want| + 1 && lengths.Length1 == |got| + 1
    requires forall i, j :: 0 <= i <= |want| && 0 <= j <= |got| ==> lengths[i, j] == Lcs(want[i..], got[j..])
    ensures buffer == RenderAll(Script(want, got))
  {
    buffer := "";
    var i, j := 0, 0;
    ghost var whole := Output("", Rest(want, got, 0, 0));
    while i < |want| && j < |got|
      invariant i <= |want| && j <= |got| && Output(buffer, Rest(want, got, i, j)) == whole
      decreases |want| - i + |got| - j
    {
      if want[i] == got[j] {
        RestKeeps(want, got, i, j);
        i, j := i + 1, j + 1;
      } else if lengths[i + 1, j] >= lengths[i, j + 1] {
        RemoveStep(buffer, want, got, i, j);
        buffer := buffer + ("- " + want[i] + "\n");
        i := i + 1;
      } else {
        InsertStep(buffer, want, got, i, j);
        buffer := buffer + ("+ " + got[j] + "\n");
        j := j + 1;
      }
    }
    while i < |want|
      invariant i <= |want| && j <= |got| && Output(buffer, Rest(want, got, i, j)) == whole
      invariant i == |want| || j == |got|
    {
      RemoveStep(buffer, want, got, i, j);
      buffer := buffer + ("- " + want[i] + "\n");
      i := i + 1;
    }
    while j < |got|
      invariant i == |want| && j <= |got| && Output(buffer, Rest(want, got, i, j)) == whole
    {
      InsertStep(buffer, want, got, i, j);
      buffer := buffer + ("+ " + got[j] + "\n");
      j := j + 1;
    }
    WalkSpans(buffer, want, got);
  }

  lemma {:induction false} SilentIsEqual(script: seq<Edit>)
    ensures RenderAll(script) == "" <==> Changes(script) == 0
    ensures Changes(script) == 0 ==> WantOf(script) == GotOf(script)
  {
    if script != [] {
      SilentIsEqual(script[1..]);
    }
  }

  lemma {:induction false} LcsOfEqual(lines: Lines)
    ensures Lcs(lines, lines) == |lines|
  {
    if lines != [] { LcsOfEqual(lines[1..]); }
  }

  // The diff is empty exactly on equal lists, and otherwise renders a minimal script.
  method ApiGoldenDiff(want: Lines, got: Lines) returns (diff: string)
    ensures diff == "" <==> want == got
    ensures diff == RenderAll(Script(want, got))
  {
    ScriptIsExact(want, got);
    SilentIsEqual(Script(want, got));
    if want == got {
      LcsOfEqual(want);
      return "";
    }
    var lengths := LcsLengths(want, got);
    diff := RenderGoldenDiff(want, got, lengths);
  }
}
