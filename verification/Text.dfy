// Byte strings: a Go string is modelled as one char per byte.
module Text {

  const DEL: char := '\U{7F}'
  const MAX_ACCOUNT_ID_BYTES := 255
  const MAX_METADATA_KEY_BYTES := 64
  const CODE_LENGTH := 3

  // Non-empty, bounded and free of ASCII control characters.
  predicate Bounded(s: string, max: nat) {
    0 < |s| <= max && forall i :: 0 <= i < |s| ==> s[i] >= ' ' && s[i] != DEL
  }

  // The rule account and transaction identifiers share.
  predicate ValidAccountID(id: string) {
    Bounded(id, MAX_ACCOUNT_ID_BYTES)
  }

  predicate ValidMetadataKey(key: string) {
    Bounded(key, MAX_METADATA_KEY_BYTES)
  }

  // The scan behind validAccountID and validMetadataKey.
  method CheckBounded(s: string, max: nat) returns (ok: bool)
    ensures ok <==> Bounded(s, max)
  {
    if s == "" || |s| > max {
      return false;
    }
    for i := 0 to |s|
      invariant forall j :: 0 <= j < i ==> s[j] >= ' ' && s[j] != DEL
    {
      if s[i] < ' ' || s[i] == DEL {
        return false;
      }
    }
    return true;
  }

  predicate IsLetter(c: char) {
    'A' <= c <= 'Z' || 'a' <= c <= 'z'
  }

  // Three ASCII letters of any case.
  predicate ValidCode(code: string) {
    |code| == CODE_LENGTH && forall i :: 0 <= i < |code| ==> IsLetter(code[i])
  }

  method CheckCode(code: string) returns (ok: bool)
    ensures ok <==> ValidCode(code)
  {
    if |code| != CODE_LENGTH {
      return false;
    }
    for i := 0 to |code|
      invariant forall j :: 0 <= j < i ==> IsLetter(code[j])
    {
      if !IsLetter(code[i]) {
        return false;
      }
    }
    return true;
  }

  // Exactly three characters between `low` and `high`.
  predicate ThreeOf(s: string, low: char, high: char) {
    |s| == CODE_LENGTH && forall i :: 0 <= i < |s| ==> low <= s[i] <= high
  }

  predicate UpperCode(code: string) {
    ThreeOf(code, 'A', 'Z')
  }

  predicate NumericCode(numeric: string) {
    ThreeOf(numeric, '0', '9')
  }

  // The scan behind the generator's validateCode and validateNumeric.
  method CheckThreeOf(s: string, low: char, high: char) returns (ok: bool)
    ensures ok <==> ThreeOf(s, low, high)
  {
    if |s| != CODE_LENGTH {
      return false;
    }
    for i := 0 to |s|
      invariant forall j :: 0 <= j < i ==> low <= s[j] <= high
    {
      if s[i] < low || s[i] > high {
        return false;
      }
    }
    return true;
  }

  // strings.ToUpper on one ASCII character.
  function UpperChar(c: char): (u: char)
    ensures IsLetter(c) <==> 'A' <= u <= 'Z'
    ensures 'A' <= c <= 'Z' ==> u == c
  {
    if 'a' <= c <= 'z' then (c as int - 'a' as int + 'A' as int) as char else c
  }

  function Upper(s: string): (u: string)
    ensures |u| == |s|
    ensures forall i :: 0 <= i < |s| ==> u[i] == UpperChar(s[i])
    ensures UpperCode(u) <==> ValidCode(s)
  {
    seq(|s|, i requires 0 <= i < |s| => UpperChar(s[i]))
  }

  lemma UpperOfUpper(code: string)
    requires UpperCode(code)
    ensures Upper(code) == code && ValidCode(code)
  {
  }

  // Equal characters, or the two cases of one ASCII letter, 32 code points apart.
  predicate SameLetter(a: char, b: char) {
    || a == b
    || ('A' <= a <= 'Z' && b as int == a as int + 32)
    || ('A' <= b <= 'Z' && a as int == b as int + 32)
  }

  // Position by position, the same letters in any case.
  predicate SameSpelling(s: string, t: string) {
    |s| == |t| && forall i :: 0 <= i < |s| ==> SameLetter(s[i], t[i])
  }

  // A lowercase letter goes to the letter 32 code points below it, and every other
  // character stays.
  lemma UpperCharShifts(c: char)
    ensures 97 <= c as int <= 122 ==> UpperChar(c) as int == c as int - 32
    ensures !(97 <= c as int <= 122) ==> UpperChar(c) == c
  {
  }

  // Two codes spell the same exactly when they have one uppercase form.
  lemma SpellingIsUpper(s: string, t: string)
    ensures SameSpelling(s, t) <==> Upper(s) == Upper(t)
  {
    forall i | 0 <= i < |s| && i < |t| ensures SameLetter(s[i], t[i]) <==> Upper(s)[i] == Upper(t)[i] {
      UpperCharShifts(s[i]);
      UpperCharShifts(t[i]);
    }
  }

  // Go's bytewise string order.
  predicate Less(a: string, b: string) {
    if b == "" then false
    else if a == "" then true
    else a[0] < b[0] || (a[0] == b[0] && Less(a[1..], b[1..]))
  }

  lemma LessIrreflexive(a: string)
    ensures !Less(a, a)
  {
  }

  lemma {:induction false} LessTransitive(a: string, b: string, c: string)
    requires Less(a, b) && Less(b, c)
    ensures Less(a, c)
  {
    if a != "" && a[0] == b[0] == c[0] {
      LessTransitive(a[1..], b[1..], c[1..]);
    }
  }

  lemma {:induction false} LessTotal(a: string, b: string)
    ensures a == b || Less(a, b) || Less(b, a)
  {
    if a != "" && b != "" && a[0] == b[0] {
      LessTotal(a[1..], b[1..]);
      assert a == [a[0]] + a[1..] && b == [b[0]] + b[1..];
    }
  }

  // What the order is: the first position that differs decides by `<`, and a proper
  // prefix comes first.
  ghost predicate DiffersFirst(a: string, b: string, i: nat) {
    i < |a| && i < |b| && a[..i] == b[..i] && a[i] < b[i]
  }

  lemma {:induction false} LessMeans(a: string, b: string)
    ensures Less(a, b) <==> (a < b && a != b) || exists i :: DiffersFirst(a, b, i)
  {
    if a != "" && b != "" && a[0] == b[0] {
      LessMeans(a[1..], b[1..]);
      assert a == [a[0]] + a[1..] && b == [b[0]] + b[1..];
      forall i: nat | i < |a[1..]| && i < |b[1..]|
        ensures DiffersFirst(a[1..], b[1..], i) <==> DiffersFirst(a, b, i + 1)
      {
        assert a[..i + 1] == [a[0]] + a[1..][..i] && b[..i + 1] == [b[0]] + b[1..][..i];
      }
      if i: nat :| DiffersFirst(a[1..], b[1..], i) { assert DiffersFirst(a, b, i + 1); }
      if i: nat :| DiffersFirst(a, b, i) { assert i > 0 && DiffersFirst(a[1..], b[1..], i - 1); }
    } else if a != "" && b != "" {
      if a[0] < b[0] { assert DiffersFirst(a, b, 0); }
      if i: nat :| DiffersFirst(a, b, i) { assert i > 0 ==> a[..i][0] == b[..i][0]; }
    }
  }
}
