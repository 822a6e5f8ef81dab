/** Strings as the source's standard libraries treat them: separator splitting,
    Unicode whitespace and control classes, ASCII case folding and decimal numbers. */
module Text {
  import opened Wrappers

  /** Unicode general category Cc (`char::is_control`). */
  predicate IsControl(c: char) {
    c <= '\U{1F}' || '\U{7F}' <= c <= '\U{9F}'
  }

  /** Unicode White_Space (`char::is_whitespace`). */
  predicate IsSpace(c: char) {
    || '\U{9}' <= c <= '\U{D}'
    || c == ' ' || c == '\U{85}' || c == '\U{A0}' || c == '\U{1680}'
    || '\U{2000}' <= c <= '\U{200A}'
    || c == '\U{2028}' || c == '\U{2029}' || c == '\U{202F}' || c == '\U{205F}' || c == '\U{3000}'
  }

  predicate ControlFree(s: string) {
    forall c | c in s :: !IsControl(c)
  }

  // ---- ASCII case ----

  function LowerChar(c: char): char {
    if 'A' <= c <= 'Z' then c + ' ' else c
  }

  function Lower(s: string): (r: string)
    ensures |r| == |s|
    ensures forall i | 0 <= i < |s| :: r[i] == LowerChar(s[i])
  {
    if s == [] then [] else [LowerChar(s[0])] + Lower(s[1..])
  }

  function UpperChar(c: char): char {
    if 'a' <= c <= 'z' then c - ' ' else c
  }

  function Upper(s: string): (r: string)
    ensures |r| == |s|
    ensures forall i | 0 <= i < |s| :: r[i] == UpperChar(s[i])
  {
    if s == [] then [] else [UpperChar(s[0])] + Upper(s[1..])
  }

  /** Folding case twice is folding it once. */
  lemma LowerIdempotent(s: string)
    ensures Lower(Lower(s)) == Lower(s)
  {
  }

  // ---- Trimming ----

  function SkipSpaces(s: string, k: nat): (i: nat)
    requires k <= |s|
    ensures k <= i <= |s| && (i < |s| ==> !IsSpace(s[i]))
    decreases |s| - k
  {
    if k == |s| || !IsSpace(s[k]) then k else SkipSpaces(s, k + 1)
  }

  function DropSpaces(s: string, lo: nat, n: nat): (i: nat)
    requires lo <= n <= |s|
    ensures lo <= i <= n && (i > lo ==> !IsSpace(s[i - 1]))
    decreases n
  {
    if n == lo || !IsSpace(s[n - 1]) then n else DropSpaces(s, lo, n - 1)
  }

  /** The string without leading and trailing whitespace. */
  function Trim(s: string): string {
    var lo := SkipSpaces(s, 0);
    s[lo..DropSpaces(s, lo, |s|)]
  }

  predicate SpaceFree(s: string) {
    forall i | 0 <= i < |s| :: !IsSpace(s[i])
  }

  predicate Trimmed(s: string) {
    s == "" || (!IsSpace(s[0]) && !IsSpace(s[|s| - 1]))
  }

  lemma TrimIsTrimmed(s: string)
    ensures Trimmed(Trim(s))
  {
  }

  lemma TrimFixed(s: string)
    requires Trimmed(s)
    ensures Trim(s) == s
  {
  }

  lemma TrimChars(s: string)
    ensures forall c | c in Trim(s) :: c in s
  {
  }

  /** Case folding keeps every character that is not a letter, and adds none. */
  lemma LowerKeeps(s: string)
    ensures SpaceFree(s) ==> SpaceFree(Lower(s))
    ensures forall c | c in Lower(s) && !('a' <= c <= 'z') :: c in s
  {
    forall c | c in Lower(s) && !('a' <= c <= 'z')
      ensures c in s
    {
      var i :| 0 <= i < |s| && Lower(s)[i] == c;
      assert s[i] == c;
    }
  }

  lemma UpperKeeps(s: string)
    ensures SpaceFree(s) ==> SpaceFree(Upper(s))
    ensures forall c | c in Upper(s) && !('A' <= c <= 'Z') :: c in s
  {
    forall c | c in Upper(s) && !('A' <= c <= 'Z')
      ensures c in s
    {
      var i :| 0 <= i < |s| && Upper(s)[i] == c;
      assert s[i] == c;
    }
  }

  lemma UpperIdempotent(s: string)
    ensures Upper(Upper(s)) == Upper(s)
  {
  }

  /** `rstrip` of one character. */
  function StripEnd(s: string, c: char): (r: string)
    ensures r == "" || r[|r| - 1] != c
  {
    if s != "" && s[|s| - 1] == c then StripEnd(s[..|s| - 1], c) else s
  }

  // ---- Separators ----

  function IndexFrom<T(==)>(s: seq<T>, sep: T, k: nat): (i: nat)
    requires k <= |s|
    ensures k <= i <= |s| && (i < |s| ==> s[i] == sep)
    decreases |s| - k
  {
    if k == |s| || s[k] == sep then k else IndexFrom(s, sep, k + 1)
  }

  /** The first position of `sep`, or `|s|` when it does not occur. */
  function IndexOf<T(==)>(s: seq<T>, sep: T): (i: nat)
    ensures i <= |s| && (i < |s| ==> s[i] == sep)
  {
    IndexFrom(s, sep, 0)
  }

  lemma {:induction false} IndexFromIsFirst<T>(s: seq<T>, sep: T, k: nat)
    requires k <= |s|
    ensures forall j | k <= j < IndexFrom(s, sep, k) :: s[j] != sep
    decreases |s| - k
  {
    if k < |s| && s[k] != sep {
      IndexFromIsFirst(s, sep, k + 1);
    }
  }

  lemma IndexOfIsFirst<T>(s: seq<T>, sep: T)
    ensures sep !in s[..IndexOf(s, sep)]
  {
    IndexFromIsFirst(s, sep, 0);
  }

  /** `str::split`: the maximal separator-free pieces, always at least one. */
  function Split<T(==)>(s: seq<T>, sep: T): (fields: seq<seq<T>>)
    ensures |fields| >= 1
  {
    var i := IndexOf(s, sep);
    if i == |s| then [s] else [s[..i]] + Split(s[i + 1..], sep)
  }

  function Join(fields: seq<string>, sep: char): string
    requires |fields| >= 1
  {
    if |fields| == 1 then fields[0] else fields[0] + [sep] + Join(fields[1..], sep)
  }

  ghost predicate SepFree(fields: seq<string>, sep: char) {
    forall i | 0 <= i < |fields| :: sep !in fields[i]
  }

  lemma IndexOfIs<T>(s: seq<T>, sep: T, i: nat)
    requires i <= |s| && sep !in s[..i] && (i < |s| ==> s[i] == sep)
    ensures IndexOf(s, sep) == i
  {
    var j := IndexOf(s, sep);
    IndexFromIsFirst(s, sep, 0);
    assert forall k | 0 <= k < i :: s[k] in s[..i];
  }

  /** Splitting loses nothing. */
  lemma {:induction false} JoinSplit(s: string, sep: char)
    ensures Join(Split(s, sep), sep) == s
    decreases |s|
  {
    var i := IndexOf(s, sep);
    if i < |s| {
      JoinSplit(s[i + 1..], sep);
      assert Split(s, sep)[1..] == Split(s[i + 1..], sep);
      CutAt(s, i);
    }
  }

  lemma {:induction false} SplitIsSepFree(s: string, sep: char)
    ensures SepFree(Split(s, sep), sep)
    decreases |s|
  {
    var i := IndexOf(s, sep);
    IndexOfIsFirst(s, sep);
    if i == |s| {
      assert s[..i] == s;
    } else {
      SplitIsSepFree(s[i + 1..], sep);
    }
  }

  /** Joining separator-free pieces is undone by splitting. */
  lemma {:induction false} SplitJoin(fields: seq<string>, sep: char)
    requires |fields| >= 1 && SepFree(fields, sep)
    ensures Split(Join(fields, sep), sep) == fields
    decreases |fields|
  {
    var s := Join(fields, sep);
    if |fields| == 1 {
      assert s[..|s|] == s;
      IndexOfIs(s, sep, |s|);
    } else {
      var i := |fields[0]|;
      assert s[..i] == fields[0];
      assert s[i + 1..] == Join(fields[1..], sep);
      IndexOfIs(s, sep, i);
      SplitJoin(fields[1..], sep);
      assert fields == [fields[0]] + fields[1..];
    }
  }

  /** Splitting at any separator splits both sides. */
  lemma {:induction false} SplitConcat<T>(a: seq<T>, b: seq<T>, sep: T)
    ensures Split(a + [sep] + b, sep) == Split(a, sep) + Split(b, sep)
    decreases |a|
  {
    var s := a + [sep] + b;
    var i := IndexOf(a, sep);
    IndexOfIsFirst(a, sep);
    assert s[..i] == a[..i];
    IndexOfIs(s, sep, i);
    if i == |a| {
      assert a[..i] == a && s[i + 1..] == b;
    } else {
      SplitConcat(a[i + 1..], b, sep);
      assert s[i + 1..] == a[i + 1..] + [sep] + b;
    }
  }

  /** A string without the separator is its own only piece. */
  lemma SplitWhole(s: string, sep: char)
    requires sep !in s
    ensures Split(s, sep) == [s]
  {
    assert s[..|s|] == s;
    IndexOfIs(s, sep, |s|);
  }

  function LastBefore(s: string, sep: char, n: nat): (i: int)
    requires n <= |s|
    ensures -1 <= i < n && (i >= 0 ==> s[i] == sep)
  {
    if n == 0 then -1 else if s[n - 1] == sep then n - 1 else LastBefore(s, sep, n - 1)
  }

  /** The last position of `sep`, or -1 when it does not occur. */
  function LastIndexOf(s: string, sep: char): (i: int)
    ensures -1 <= i < |s| && (i >= 0 ==> s[i] == sep)
  {
    LastBefore(s, sep, |s|)
  }

  lemma {:induction false} LastBeforeIsLast(s: string, sep: char, n: nat)
    requires n <= |s|
    ensures forall j | LastBefore(s, sep, n) < j < n :: s[j] != sep
  {
    if n > 0 && s[n - 1] != sep {
      LastBeforeIsLast(s, sep, n - 1);
    }
  }

  lemma LastIndexOfIsLast(s: string, sep: char)
    ensures sep !in s[LastIndexOf(s, sep) + 1..]
  {
    LastBeforeIsLast(s, sep, |s|);
  }

  /** The last separator cuts off the last piece. */
  lemma SplitLast(s: string, sep: char, i: nat)
    requires i < |s| && s[i] == sep && sep !in s[i + 1..]
    ensures Split(s, sep) == Split(s[..i], sep) + [s[i + 1..]]
  {
    SplitWhole(s[i + 1..], sep);
    CutAt(s, i);
    SplitConcat(s[..i], s[i + 1..], sep);
  }

  lemma CutAt(s: string, i: nat)
    requires i < |s|
    ensures s == s[..i] + [s[i]] + s[i + 1..]
  {
  }

  /** Distinct separator-free lists never join to one string. */
  lemma JoinInjective(a: seq<string>, b: seq<string>, sep: char)
    requires |a| >= 1 && |b| >= 1 && SepFree(a, sep) && SepFree(b, sep)
    requires Join(a, sep) == Join(b, sep)
    ensures a == b
  {
    SplitJoin(a, sep);
    SplitJoin(b, sep);
  }

  /** Characters of a joined list come from its pieces or are the separator. */
  lemma {:induction false} JoinChars(fields: seq<string>, sep: char)
    requires |fields| >= 1
    ensures forall c | c in Join(fields, sep) :: c == sep || exists i :: 0 <= i < |fields| && c in fields[i]
    decreases |fields|
  {
    if |fields| > 1 {
      JoinChars(fields[1..], sep);
      forall c | c in Join(fields, sep) && c != sep
        ensures exists i :: 0 <= i < |fields| && c in fields[i]
      {
        if c !in fields[0] {
          var i :| 0 <= i < |fields[1..]| && c in fields[1..][i];
          assert c in fields[i + 1];
        }
      }
    }
  }

  // ---- Decimal numbers ----

  predicate IsDigit(c: char) {
    '0' <= c <= '9'
  }

  predicate AllDigits(s: string) {
    forall i | 0 <= i < |s| :: IsDigit(s[i])
  }

  function DigitsValue(s: string): nat
    requires AllDigits(s)
  {
    if s == [] then 0
    else DigitsValue(s[..|s| - 1]) * 10 + (s[|s| - 1] - '0') as nat
  }

  /** `str::parse` for an unsigned integer with the given maximum: one optional
      plus sign, then at least one digit, then no overflow. */
  function ParseUnsigned(s: string, max: nat): Option<nat> {
    var digits := if s != [] && s[0] == '+' then s[1..] else s;
    if digits == [] || !AllDigits(digits) || DigitsValue(digits) > max then None
    else Some(DigitsValue(digits))
  }

  function DigitChar(d: nat): (c: char)
    requires d < 10
    ensures IsDigit(c) && (c - '0') as nat == d
  {
    '0' + d as char
  }

  /** The decimal rendering of a number, without leading zeros. */
  function Decimal(n: nat): (s: string)
    ensures |s| >= 1
  {
    if n < 10 then [DigitChar(n)] else Decimal(n / 10) + [DigitChar(n % 10)]
  }

  lemma {:induction false} DecimalValue(n: nat)
    ensures AllDigits(Decimal(n)) && DigitsValue(Decimal(n)) == n
  {
    var s := Decimal(n);
    if n < 10 {
      assert s[..|s| - 1] == [];
    } else {
      DecimalValue(n / 10);
      assert s[..|s| - 1] == Decimal(n / 10);
    }
  }

  /** Rendering and parsing agree, so rendering is injective. */
  lemma ParseDecimal(n: nat, max: nat)
    ensures ParseUnsigned(Decimal(n), max) == if n <= max then Some(n) else None
  {
    DecimalValue(n);
    assert IsDigit(Decimal(n)[0]);
  }

  /** Digits are neither control characters nor any separator used by a layout. */
  lemma DecimalPlain(n: nat)
    ensures forall c | c in Decimal(n) :: IsDigit(c)
    ensures ControlFree(Decimal(n))
  {
    var s := Decimal(n);
    DecimalValue(n);
    forall c | c in s
      ensures IsDigit(c)
    {
      var i :| 0 <= i < |s| && s[i] == c;
    }
  }
}
