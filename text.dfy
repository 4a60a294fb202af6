/** Character classes and string operations shared by the Rust backend, the
    Electron renderer helper and the Python converter. Each host language has
    its own notion of whitespace; both are written out here. */
module Text {

  predicate IsDigit(c: char) { '0' <= c <= '9' }

  predicate IsAsciiLetter(c: char) { 'a' <= c <= 'z' || 'A' <= c <= 'Z' }

  predicate IsHexDigit(c: char) { IsDigit(c) || 'a' <= c <= 'f' || 'A' <= c <= 'F' }

  predicate IsAscii(c: char) { c < '\U{80}' }

  /** `[0-9A-Za-z_]`: the ASCII characters that a regex `\w` matches. */
  predicate IsWordChar(c: char) { IsDigit(c) || IsAsciiLetter(c) || c == '_' }

  predicate AllDigits(s: string) { forall i :: 0 <= i < |s| ==> IsDigit(s[i]) }

  /** Rust's `char::is_whitespace`: the Unicode White_Space property. */
  predicate RustWhitespace(c: char) {
    ('\t' <= c <= '\r') || c == ' ' || c == '\U{85}' || c == '\U{A0}' || c == '\U{1680}'
    || ('\U{2000}' <= c <= '\U{200A}') || c == '\U{2028}' || c == '\U{2029}'
    || c == '\U{202F}' || c == '\U{205F}' || c == '\U{3000}'
  }

  /** JavaScript's `String.prototype.trim` set: WhiteSpace and LineTerminator.
      It has U+FEFF and lacks U+0085, unlike Rust's. */
  predicate JsWhitespace(c: char) {
    ('\t' <= c <= '\r') || c == ' ' || c == '\U{A0}' || c == '\U{FEFF}' || c == '\U{1680}'
    || ('\U{2000}' <= c <= '\U{200A}') || c == '\U{2028}' || c == '\U{2029}'
    || c == '\U{202F}' || c == '\U{205F}' || c == '\U{3000}'
  }

  /** ASCII case folding; the strings it is applied to in the extractors are ASCII. */
  function LowerChar(c: char): (d: char)
    ensures 'A' <= c <= 'Z' ==> d == c + ('a' - 'A')
    ensures !('A' <= c <= 'Z') ==> d == c
  {
    if 'A' <= c <= 'Z' then c + ('a' - 'A') else c
  }

  function Lower(s: string): (r: string)
    ensures |r| == |s|
    ensures forall i :: 0 <= i < |s| ==> r[i] == LowerChar(s[i])
  {
    seq(|s|, i requires 0 <= i < |s| => LowerChar(s[i]))
  }

  predicate IsLower(s: string) { forall i :: 0 <= i < |s| ==> !('A' <= s[i] <= 'Z') }

  lemma LowerConcat(a: string, b: string)
    ensures Lower(a + b) == Lower(a) + Lower(b)
  {
  }

  lemma LowerIsLowerIdempotent(s: string)
    ensures IsLower(Lower(s)) && Lower(Lower(s)) == Lower(s)
  {
  }

  // ---------------------------------------------------------------------------
  // Joining and splitting

  /** `parts.join(sep)` in Rust and JavaScript, `sep.join(parts)` in Python. */
  function Join(parts: seq<string>, sep: string): string
  {
    if |parts| == 0 then []
    else if |parts| == 1 then parts[0]
    else parts[0] + sep + Join(parts[1..], sep)
  }

  lemma {:induction false} JoinLength(parts: seq<string>, sep: string, total: nat)
    requires total == SumLengths(parts)
    ensures |Join(parts, sep)| == total + (if |parts| == 0 then 0 else (|parts| - 1) * |sep|)
  {
    if |parts| > 1 {
      JoinLength(parts[1..], sep, SumLengths(parts[1..]));
    }
  }

  /** A join holds `c` only where a piece or the separator does. */
  lemma {:induction false} JoinAvoids(parts: seq<string>, sep: string, c: char)
    requires c !in sep
    requires forall k :: 0 <= k < |parts| ==> c !in parts[k]
    ensures c !in Join(parts, sep)
  {
    if |parts| > 1 {
      JoinAvoids(parts[1..], sep, c);
    }
  }

  function SumLengths(parts: seq<string>): nat
  {
    if |parts| == 0 then 0 else |parts[0]| + SumLengths(parts[1..])
  }

  /** Position of the first `c` in `s`, or -1. */
  function IndexOf(s: string, c: char): (r: int)
    ensures -1 <= r < |s|
    ensures r >= 0 ==> s[r] == c && forall j :: 0 <= j < r ==> s[j] != c
    ensures r == -1 <==> c !in s
  {
    IndexFrom(s, c, 0)
  }

  /** Position of the first `c` in `s` at or after `i`, or -1. */
  function IndexFrom(s: string, c: char, i: nat): (r: int)
    requires i <= |s|
    ensures r == -1 || i <= r < |s|
    ensures r >= 0 ==> s[r] == c && forall j :: i <= j < r ==> s[j] != c
    ensures r == -1 ==> forall j :: i <= j < |s| ==> s[j] != c
    decreases |s| - i
  {
    if i == |s| then -1 else if s[i] == c then i else IndexFrom(s, c, i + 1)
  }

  /** Position of the last `c` in `s`, or -1. */
  function LastIndexOf(s: string, c: char): (r: int)
    ensures -1 <= r < |s|
    ensures r >= 0 ==> s[r] == c && forall j :: r < j < |s| ==> s[j] != c
    ensures r == -1 <==> c !in s
  {
    LastIndexBefore(s, c, |s|)
  }

  /** Position of the last `c` among the first `n` characters of `s`, or -1. */
  function LastIndexBefore(s: string, c: char, n: nat): (r: int)
    requires n <= |s|
    ensures -1 <= r < n
    ensures r >= 0 ==> s[r] == c && forall j :: r < j < n ==> s[j] != c
    ensures r == -1 ==> forall j :: 0 <= j < n ==> s[j] != c
  {
    if n == 0 then -1 else if s[n - 1] == c then n - 1 else LastIndexBefore(s, c, n - 1)
  }

  /** `s.split(c)`: the pieces between occurrences of `c`; never empty. */
  function Split(s: string, c: char): (r: seq<string>)
    ensures |r| > 0
    decreases |s|
  {
    var i := IndexOf(s, c);
    if i < 0 then [s] else [s[..i]] + Split(s[i + 1..], c)
  }

  /** No piece of a split holds the separator. */
  lemma {:induction false} SplitAvoids(s: string, c: char)
    ensures forall k :: 0 <= k < |Split(s, c)| ==> c !in Split(s, c)[k]
    decreases |s|
  {
    var i := IndexOf(s, c);
    if i >= 0 {
      SplitUnfold(s, c, i);
      SplitAvoids(s[i + 1..], c);
      assert forall j :: 0 <= j < i ==> s[..i][j] == s[j];
    }
  }

  /** Splitting a join at a separator that no piece contains gives the pieces back. */
  lemma {:induction false} SplitJoin(parts: seq<string>, c: char)
    requires |parts| > 0
    requires forall k :: 0 <= k < |parts| ==> c !in parts[k]
    ensures Split(Join(parts, [c]), c) == parts
  {
    if |parts| == 1 {
      assert IndexOf(parts[0], c) == -1;
    } else {
      var s := Join(parts, [c]);
      var p := parts[0];
      assert s == p + [c] + Join(parts[1..], [c]);
      assert s[|p|] == c && s[..|p|] == p;
      assert IndexOf(s, c) == |p|;
      assert s[|p| + 1..] == Join(parts[1..], [c]);
      SplitJoin(parts[1..], c);
    }
  }

  lemma IndexOfAfter(a: string, c: char, b: string)
    requires c !in a
    ensures IndexOf(a + [c] + b, c) == |a|
  {
    var s := a + [c] + b;
    assert s[|a|] == c && s[..|a|] == a;
    IndexOfUnique(s, c, |a|);
  }

  lemma LastIndexOfBefore(a: string, c: char, b: string)
    requires c !in b
    ensures LastIndexOf(a + [c] + b, c) == |a|
  {
    var s := a + [c] + b;
    assert s[|a|] == c && s[|a| + 1..] == b;
    LastIndexOfUnique(s, c, |a|);
  }

  /** The first occurrence is the one with no occurrence before it. */
  lemma IndexOfUnique(s: string, c: char, r: int)
    requires 0 <= r < |s| && s[r] == c && c !in s[..r]
    ensures IndexOf(s, c) == r
  {
    assert forall j :: 0 <= j < r ==> s[..r][j] == s[j];
  }

  /** The last occurrence is the one with no further occurrence after it. */
  lemma LastIndexOfUnique(s: string, c: char, r: int)
    requires 0 <= r < |s| && s[r] == c && c !in s[r + 1..]
    ensures LastIndexOf(s, c) == r
  {
    assert forall j :: r < j < |s| ==> s[r + 1..][j - r - 1] == s[j];
  }

  /** The last piece of a split is what follows the last separator. */
  lemma {:induction false} LastPieceOfSplit(s: string, c: char)
    ensures var parts := Split(s, c); parts[|parts| - 1] == s[LastIndexOf(s, c) + 1..]
    decreases |s|
  {
    var i := IndexOf(s, c);
    if i >= 0 {
      var t := s[i + 1..];
      SplitUnfold(s, c, i);
      LastPieceOfSplit(t, c);
      LastIndexOfTail(s, c, i);
      DropDrop(s, i + 1, LastIndexOf(t, c) + 1);
    }
  }

  lemma SplitUnfold(s: string, c: char, i: int)
    requires 0 <= i < |s| && IndexOf(s, c) == i
    ensures Split(s, c) == [s[..i]] + Split(s[i + 1..], c)
  {
  }

  lemma DropDrop<T>(s: seq<T>, a: int, b: int)
    requires 0 <= a <= |s| && 0 <= b <= |s| - a
    ensures s[a..][b..] == s[a + b..]
  {
  }

  /** Past an occurrence at `i`, the last occurrence is found in what follows `i`. */
  lemma LastIndexOfTail(s: string, c: char, i: int)
    requires 0 <= i < |s| && s[i] == c
    ensures LastIndexOf(s, c) == i + 1 + LastIndexOf(s[i + 1..], c)
  {
    var t := s[i + 1..];
    var q := LastIndexOf(t, c);
    assert s[i + 1 + q + 1..] == t[q + 1..];
    LastIndexOfUnique(s, c, i + 1 + q);
  }

  function StripCr(line: string): string
  {
    if |line| > 0 && line[|line| - 1] == '\r' then line[..|line| - 1] else line
  }

  /** Rust's `lines()` (on `str` and on `BufRead`): split at "\n" or "\r\n";
      the final line ending is optional, so no empty last line is produced. */
  function Lines(s: string): seq<string>
    decreases |s|
  {
    if |s| == 0 then []
    else
      var i := IndexOf(s, '\n');
      if i < 0 then [s] else [StripCr(s[..i])] + Lines(s[i + 1..])
  }

  predicate IsLine(row: string) { '\n' !in row && (|row| == 0 || row[|row| - 1] != '\r') }

  /** Splitting a join of line-shaped rows gives the rows back, as long as the
      last row is not empty (an empty last line has no line of its own). */
  lemma {:induction false} LinesOfJoin(rows: seq<string>)
    requires forall k :: 0 <= k < |rows| ==> IsLine(rows[k])
    requires |rows| == 0 || |rows[|rows| - 1]| > 0
    ensures Lines(Join(rows, "\n")) == rows
  {
    if |rows| == 1 {
      assert IndexOf(rows[0], '\n') == -1;
    } else if |rows| > 1 {
      LinesOfJoin(rows[1..]);
      LinesCons(rows[0], Join(rows[1..], "\n"));
    }
  }

  /** A line followed by a line break is the first of the lines. */
  lemma LinesCons(row: string, rest: string)
    requires IsLine(row)
    ensures Lines(row + "\n" + rest) == [row] + Lines(rest)
  {
    var s := row + "\n" + rest;
    IndexOfAfter(row, '\n', rest);
    LinesUnfold(s, |row|);
    assert s[..|row|] == row;
    assert s[|row| + 1..] == rest;
  }

  lemma LinesUnfold(s: string, i: int)
    requires 0 <= i < |s| && IndexOf(s, '\n') == i
    ensures Lines(s) == [StripCr(s[..i])] + Lines(s[i + 1..])
  {
  }

  // ---------------------------------------------------------------------------
  // Trimming, by the whitespace of the host language

  datatype Host = Rust | Js

  predicate IsSpace(host: Host, c: char)
  {
    match host
    case Rust => RustWhitespace(c)
    case Js => JsWhitespace(c)
  }

  /** Number of leading whitespace characters. */
  function LeadingSpace(host: Host, s: string): (n: nat)
    ensures n <= |s|
  {
    if |s| > 0 && IsSpace(host, s[0]) then 1 + LeadingSpace(host, s[1..]) else 0
  }

  /** Length of the prefix that ends before the trailing whitespace. */
  function TrailingStart(host: Host, s: string): (n: nat)
    ensures n <= |s|
  {
    if |s| > 0 && IsSpace(host, s[|s| - 1]) then TrailingStart(host, s[..|s| - 1]) else |s|
  }

  /** `trim()`: drop leading and trailing whitespace. */
  function Trim(host: Host, s: string): string
  {
    var a := s[LeadingSpace(host, s)..];
    a[..TrailingStart(host, a)]
  }

  predicate IsBlank(host: Host, s: string) { forall i :: 0 <= i < |s| ==> IsSpace(host, s[i]) }

  predicate IsTrimmed(host: Host, s: string)
  {
    |s| > 0 ==> !IsSpace(host, s[0]) && !IsSpace(host, s[|s| - 1])
  }

  /** The leading whitespace run is whitespace and stops at a non-space. */
  lemma {:induction false} LeadingSpaceSpec(host: Host, s: string)
    ensures var n := LeadingSpace(host, s);
      (forall i :: 0 <= i < n ==> IsSpace(host, s[i])) && (n < |s| ==> !IsSpace(host, s[n]))
  {
    if |s| > 0 && IsSpace(host, s[0]) {
      LeadingSpaceSpec(host, s[1..]);
    }
  }

  /** The trailing whitespace run is whitespace and starts after a non-space. */
  lemma {:induction false} TrailingStartSpec(host: Host, s: string)
    ensures var n := TrailingStart(host, s);
      (forall i :: n <= i < |s| ==> IsSpace(host, s[i])) && (n > 0 ==> !IsSpace(host, s[n - 1]))
  {
    if |s| > 0 && IsSpace(host, s[|s| - 1]) {
      TrailingStartSpec(host, s[..|s| - 1]);
    }
  }

  /** Trimming leaves a trimmed string, and it is empty exactly when the
      input is blank. */
  lemma TrimSpec(host: Host, s: string)
    ensures IsTrimmed(host, Trim(host, s))
    ensures Trim(host, s) == [] <==> IsBlank(host, s)
  {
    TrimIsTrimmed(host, s);
    TrimEmpty(host, s);
  }

  lemma TrimIsTrimmed(host: Host, s: string)
    ensures IsTrimmed(host, Trim(host, s))
  {
    var i := LeadingSpace(host, s);
    var j := TrailingStart(host, s[i..]);
    LeadingSpaceSpec(host, s);
    TrailingStartSpec(host, s[i..]);
    assert j > 0 ==> s[i..][j - 1] == s[i + j - 1];
  }

  lemma TrimEmpty(host: Host, s: string)
    ensures Trim(host, s) == [] <==> IsBlank(host, s)
  {
    var i := LeadingSpace(host, s);
    LeadingSpaceSpec(host, s);
    TrailingStartSpec(host, s[i..]);
    assert forall k :: i <= k < |s| ==> s[i..][k - i] == s[k];
  }

  lemma TrimOfTrimmed(host: Host, s: string)
    requires IsTrimmed(host, s)
    ensures Trim(host, s) == s
  {
  }

  // ---------------------------------------------------------------------------
  // Prefixes and suffixes

  predicate StartsWith(s: string, p: string) { |p| <= |s| && s[..|p|] == p }

  predicate EndsWith(s: string, p: string) { |p| <= |s| && s[|s| - |p|..] == p }

  // ---------------------------------------------------------------------------
  // Decimal rendering of integers (`to_string`, `format!("{}")`, f-strings)

  function DigitChar(d: nat): (c: char)
    requires d < 10
    ensures IsDigit(c)
  {
    '0' + d as char
  }

  function NatToString(n: nat): (r: string)
    ensures |r| > 0 && AllDigits(r)
    ensures |r| > 1 ==> r[0] != '0'
  {
    if n < 10 then [DigitChar(n)] else NatToString(n / 10) + [DigitChar(n % 10)]
  }

  function IntToString(n: int): (r: string)
  {
    if n < 0 then "-" + NatToString(-n) else NatToString(n)
  }

  function DigitValue(c: char): nat
    requires IsDigit(c)
  {
    (c - '0') as nat
  }

  function ParseNat(s: string): nat
    requires AllDigits(s)
  {
    if |s| == 0 then 0 else 10 * ParseNat(s[..|s| - 1]) + DigitValue(s[|s| - 1])
  }

  /** Reading back a rendered number gives the number, so distinct numbers
      render to distinct strings. */
  lemma {:induction false} ParseNatToString(n: nat)
    ensures ParseNat(NatToString(n)) == n
  {
    if n >= 10 {
      var r := NatToString(n);
      assert r[..|r| - 1] == NatToString(n / 10);
      ParseNatToString(n / 10);
    }
  }

  lemma NatToStringInjective(m: nat, n: nat)
    requires NatToString(m) == NatToString(n)
    ensures m == n
  {
    ParseNatToString(m);
    ParseNatToString(n);
  }

  // ---------------------------------------------------------------------------
  // Byte order of strings (SQLite's BINARY collation; on UTF-8 it is code-point order)

  predicate LexLess(a: string, b: string)
    decreases |a|
  {
    if |a| == 0 then |b| > 0
    else if |b| == 0 then false
    else if a[0] != b[0] then a[0] < b[0]
    else LexLess(a[1..], b[1..])
  }

  lemma {:induction false} LexLessIrreflexive(a: string)
    ensures !LexLess(a, a)
  {
    if |a| > 0 { LexLessIrreflexive(a[1..]); }
  }

  lemma {:induction false} LexLessTotal(a: string, b: string)
    ensures a == b || LexLess(a, b) || LexLess(b, a)
  {
    if |a| > 0 && |b| > 0 && a[0] == b[0] {
      LexLessTotal(a[1..], b[1..]);
      if a[1..] == b[1..] { assert a == [a[0]] + a[1..] && b == [b[0]] + b[1..]; }
    }
  }

  lemma {:induction false} LexLessAsymmetric(a: string, b: string)
    requires LexLess(a, b)
    ensures !LexLess(b, a)
  {
    if |a| > 0 && |b| > 0 && a[0] == b[0] { LexLessAsymmetric(a[1..], b[1..]); }
  }

  lemma {:induction false} LexLessTransitive(a: string, b: string, c: string)
    requires LexLess(a, b) && LexLess(b, c)
    ensures LexLess(a, c)
  {
    if |a| > 0 && |b| > 0 && |c| > 0 && a[0] == b[0] && b[0] == c[0] {
      LexLessTransitive(a[1..], b[1..], c[1..]);
    }
  }
}
