/** String helpers over `seq<char>` with the semantics of the JavaScript and
    Node.js built-ins the backend relies on (`toLowerCase`, `startsWith`,
    `lastIndexOf`, `split`, `replace(/\\/g, '/')`, `path.extname`,
    `path.basename`, number-to-string and the default `Array.prototype.sort`
    comparison). */
module Text {

  // ---------------------------------------------------------------------------
  // Case and affixes
  // ---------------------------------------------------------------------------

  function LowerChar(c: char): char {
    if 'A' <= c <= 'Z' then (c as int + 32) as char else c
  }

  /** `s.toLowerCase()`, restricted to the ASCII letters. */
  function Lower(s: string): (r: string)
    ensures |r| == |s|
    ensures forall i :: 0 <= i < |s| ==> r[i] == LowerChar(s[i])
  {
    if |s| == 0 then "" else [LowerChar(s[0])] + Lower(s[1..])
  }

  lemma LowerOfLowercase(s: string)
    requires forall i :: 0 <= i < |s| ==> !('A' <= s[i] <= 'Z')
    ensures Lower(s) == s
  {
  }

  lemma LowerIdempotent(s: string)
    ensures Lower(Lower(s)) == Lower(s)
  {
  }

  predicate StartsWith(s: string, prefix: string) {
    |prefix| <= |s| && s[..|prefix|] == prefix
  }

  predicate EndsWith(s: string, suffix: string) {
    |suffix| <= |s| && s[|s| - |suffix|..] == suffix
  }

  // ---------------------------------------------------------------------------
  // Searching
  // ---------------------------------------------------------------------------

  /** `s.indexOf(c)`: the first position of `c`, or -1. */
  function IndexOf(s: string, c: char): (r: int)
    ensures -1 <= r < |s|
    ensures r >= 0 ==> s[r] == c && c !in s[..r]
    ensures r == -1 <==> c !in s
  {
    if |s| == 0 then -1
    else if s[0] == c then 0
    else
      var k := IndexOf(s[1..], c);
      if k < 0 then -1
      else
        assert s[..k + 1] == [s[0]] + s[1..][..k];
        k + 1
  }

  /** `s.lastIndexOf(c)`: the last position of `c`, or -1. */
  function LastIndexOf(s: string, c: char): (r: int)
    ensures -1 <= r < |s|
    ensures r >= 0 ==> s[r] == c && c !in s[r + 1..]
    ensures r == -1 <==> c !in s
  {
    if |s| == 0 then -1
    else if s[|s| - 1] == c then
      assert s[|s|..] == [];
      |s| - 1
    else
      var init := s[..|s| - 1];
      var k := LastIndexOf(init, c);
      assert s == init + [s[|s| - 1]];
      if k < 0 then k
      else
        assert s[k] == init[k];
        assert s[k + 1..] == init[k + 1..] + [s[|s| - 1]];
        k
  }

  // ---------------------------------------------------------------------------
  // split / join
  // ---------------------------------------------------------------------------

  /** `s.split(c)` for a one-character separator: one more segment than there
      are separators, none of them containing the separator. */
  function Split(s: string, c: char): (r: seq<string>)
    ensures |r| >= 1
    ensures forall i :: 0 <= i < |r| ==> c !in r[i]
    ensures c !in s ==> r == [s]
    decreases |s|
  {
    var k := IndexOf(s, c);
    if k < 0 then [s] else [s[..k]] + Split(s[k + 1..], c)
  }

  /** `parts.join(c)`. */
  function Join(parts: seq<string>, c: char): string
    requires |parts| >= 1
  {
    if |parts| == 1 then parts[0] else parts[0] + [c] + Join(parts[1..], c)
  }

  /** Joining the segments of a split with the same separator gives back the
      original string. */
  lemma {:induction false} JoinSplit(s: string, c: char)
    ensures Join(Split(s, c), c) == s
    decreases |s|
  {
    var k := IndexOf(s, c);
    if k >= 0 {
      var tail := s[k + 1..];
      JoinSplit(tail, c);
      var rest := Split(tail, c);
      var parts := [s[..k]] + rest;
      SplitUnfold(s, c);
      assert |parts| > 1 && parts[0] == s[..k] && parts[1..] == rest;
      assert Join(parts, c) == s[..k] + [c] + Join(rest, c);
      Reassemble(s, k);
    }
  }

  /** One step of `Split`: the part before the first separator, then the
      split of the rest. */
  lemma SplitUnfold(s: string, c: char)
    requires c in s
    ensures Split(s, c) == [s[..IndexOf(s, c)]] + Split(s[IndexOf(s, c) + 1..], c)
  {
  }

  lemma Reassemble<T>(s: seq<T>, k: nat)
    requires k < |s|
    ensures s == s[..k] + [s[k]] + s[k + 1..]
  {
  }

  /** The segment after the first separator, when there is one: `s.split(c)[1]`. */
  function SecondSegment(s: string, c: char): (r: string)
    requires c in s
    ensures c !in r
    ensures exists k :: 0 <= k < |s| && s[k] == c && c !in s[..k] && StartsWith(s[k + 1..], r)
  {
    var k := IndexOf(s, c);
    var rest := s[k + 1..];
    var j := IndexOf(rest, c);
    var r := if j < 0 then rest else rest[..j];
    assert StartsWith(s[k + 1..], r);
    r
  }

  lemma SecondSegmentIsSplitOne(s: string, c: char)
    requires c in s
    ensures |Split(s, c)| >= 2 && Split(s, c)[1] == SecondSegment(s, c)
  {
    var k := IndexOf(s, c);
    var rest := s[k + 1..];
    var j := IndexOf(rest, c);
    var seg := if j < 0 then rest else rest[..j];
    assert Split(s, c) == [s[..k]] + Split(rest, c);
    assert Split(rest, c)[0] == seg by {
      if j >= 0 {
        assert Split(rest, c) == [rest[..j]] + Split(rest[j + 1..], c);
      }
    }
    assert SecondSegment(s, c) == seg;
  }

  // ---------------------------------------------------------------------------
  // replace
  // ---------------------------------------------------------------------------

  /** `s.replace(/from/g, to)` for single characters. */
  function ReplaceAll(s: string, from: char, to: char): (r: string)
    ensures |r| == |s|
    ensures forall i :: 0 <= i < |s| ==> r[i] == (if s[i] == from then to else s[i])
  {
    if |s| == 0 then "" else [if s[0] == from then to else s[0]] + ReplaceAll(s[1..], from, to)
  }

  lemma ReplaceAllRemoves(s: string, from: char, to: char)
    requires from != to
    ensures from !in ReplaceAll(s, from, to)
    ensures from !in s ==> ReplaceAll(s, from, to) == s
  {
  }

  /** Replacing works character by character, so it distributes over
      concatenation. */
  lemma {:induction false} ReplaceAllAppend(a: string, b: string, from: char, to: char)
    ensures ReplaceAll(a + b, from, to) == ReplaceAll(a, from, to) + ReplaceAll(b, from, to)
    decreases |a|
  {
    if |a| == 0 {
      assert a + b == b;
    } else {
      assert (a + b)[1..] == a[1..] + b;
      ReplaceAllAppend(a[1..], b, from, to);
    }
  }

  // ---------------------------------------------------------------------------
  // Decimal rendering of ids (`String(n)` / `n.toString()`)
  // ---------------------------------------------------------------------------

  predicate IsDigit(c: char) { '0' <= c <= '9' }

  function DigitChar(d: nat): (c: char)
    requires d < 10
    ensures IsDigit(c)
  {
    ['0', '1', '2', '3', '4', '5', '6', '7', '8', '9'][d]
  }

  function DigitValue(c: char): nat
    requires IsDigit(c)
  {
    c as int - '0' as int
  }

  /** The decimal numeral of `n`, with no leading zeros. */
  function NatToString(n: nat): (r: string)
    ensures |r| >= 1
    ensures forall i :: 0 <= i < |r| ==> IsDigit(r[i])
    ensures |r| > 1 ==> r[0] != '0'
    decreases n
  {
    if n < 10 then [DigitChar(n)] else NatToString(n / 10) + [DigitChar(n % 10)]
  }

  /** The number a string of digits denotes. */
  function DecimalValue(s: string): nat
    requires forall i :: 0 <= i < |s| ==> IsDigit(s[i])
  {
    if |s| == 0 then 0 else 10 * DecimalValue(s[..|s| - 1]) + DigitValue(s[|s| - 1])
  }

  lemma DigitRoundTrip(d: nat)
    requires d < 10
    ensures DigitValue(DigitChar(d)) == d
  {
  }

  /** Reading back the rendering of an id gives the id, so distinct folders
      get distinct directory names. */
  lemma {:induction false} NatToStringRoundTrip(n: nat)
    ensures DecimalValue(NatToString(n)) == n
    decreases n
  {
    var r := NatToString(n);
    if n < 10 {
      DigitRoundTrip(n);
    } else {
      NatToStringRoundTrip(n / 10);
      DigitRoundTrip(n % 10);
      assert r[..|r| - 1] == NatToString(n / 10);
    }
  }

  lemma NatToStringInjective(a: nat, b: nat)
    requires NatToString(a) == NatToString(b)
    ensures a == b
  {
    NatToStringRoundTrip(a);
    NatToStringRoundTrip(b);
  }

  // ---------------------------------------------------------------------------
  // Default string ordering of Array.prototype.sort
  // ---------------------------------------------------------------------------

  /** Lexicographic order on character codes. */
  predicate LexLe(a: string, b: string)
    decreases |a|
  {
    |a| == 0 || (|b| > 0 && (a[0] < b[0] || (a[0] == b[0] && LexLe(a[1..], b[1..]))))
  }

  lemma {:induction false} LexLeTotal(a: string, b: string)
    ensures LexLe(a, b) || LexLe(b, a)
    decreases |a|
  {
    if |a| > 0 && |b| > 0 && a[0] == b[0] {
      LexLeTotal(a[1..], b[1..]);
    }
  }

  lemma {:induction false} LexLeTransitive(a: string, b: string, c: string)
    requires LexLe(a, b) && LexLe(b, c)
    ensures LexLe(a, c)
    decreases |a|
  {
    if |a| > 0 && a[0] == b[0] && b[0] == c[0] {
      LexLeTransitive(a[1..], b[1..], c[1..]);
    }
  }

  lemma {:induction false} LexLeAntisymmetric(a: string, b: string)
    requires LexLe(a, b) && LexLe(b, a)
    ensures a == b
    decreases |a|
  {
    if |a| > 0 {
      LexLeAntisymmetric(a[1..], b[1..]);
      assert a == [a[0]] + a[1..] && b == [b[0]] + b[1..];
    }
  }

  // ---------------------------------------------------------------------------
  // path.extname / path.basename on one path segment
  // ---------------------------------------------------------------------------

  /** `path.extname(name)` for a name with no directory part: from the last
      '.' to the end, except that a leading dot (".bashrc") and the name ".."
      have no extension. The result is empty or a '.' followed by dot-free
      text. */
  function ExtName(name: string): (r: string)
    ensures r == "" || (r[0] == '.' && '.' !in r[1..])
    ensures '.' !in name ==> r == ""
  {
    var k := LastIndexOf(name, '.');
    if k <= 0 || name == ".." then "" else name[k..]
  }

  /** The extension is a suffix of the name, and shorter than it unless both
      are empty. */
  lemma ExtNameIsSuffix(name: string)
    ensures var e := ExtName(name);
            EndsWith(name, e) && |e| < |name| + (if e == "" then 1 else 0)
  {
    var k := LastIndexOf(name, '.');
    if k <= 0 || name == ".." {
      assert ExtName(name) == "";
      assert name[|name|..] == "";
    } else {
      assert ExtName(name) == name[k..];
      assert |name| - |name[k..]| == k;
    }
  }

  /** `path.basename(name, ext)` for a name with no directory part. */
  function BaseName(name: string, ext: string): string {
    if 0 < |ext| <= |name| then
      if ext == name then "" else if EndsWith(name, ext) then name[..|name| - |ext|] else name
    else name
  }

  /** The base name is a prefix of the name: the name without `ext` when it
      ends in it and is longer, else the whole name (nothing when the name is
      `ext` itself). */
  lemma BaseNameStrips(name: string, ext: string)
    ensures StartsWith(name, BaseName(name, ext))
    ensures 0 < |ext| < |name| && EndsWith(name, ext) ==> BaseName(name, ext) + ext == name
    ensures ext == "" || !EndsWith(name, ext) ==> BaseName(name, ext) == name
    ensures ext == name ==> BaseName(name, ext) == ""
  {
    if 0 < |ext| < |name| && EndsWith(name, ext) {
      assert name == name[..|name| - |ext|] + name[|name| - |ext|..];
    }
  }

  /** Splitting a name into base and extension loses nothing. */
  lemma BaseNamePlusExtName(name: string)
    ensures BaseName(name, ExtName(name)) + ExtName(name) == name
  {
    var e := ExtName(name);
    if e != "" {
      var k := LastIndexOf(name, '.');
      assert name == name[..k] + name[k..];
    }
  }

  /** In `stem + ext`, where `ext` is '.' followed by dot-free text, the last
      '.' is the one that starts `ext`. */
  lemma LastDotOfSuffixed(stem: string, ext: string)
    requires |ext| > 0 && ext[0] == '.' && '.' !in ext[1..]
    ensures LastIndexOf(stem + ext, '.') == |stem|
    ensures (stem + ext)[..|stem|] == stem && (stem + ext)[|stem|..] == ext
  {
    var name := stem + ext;
    assert name[|stem|] == '.';
    assert name[|stem| + 1..] == ext[1..];
  }

  /** A name of the form `stem + ext`, where `ext` is '.' followed by dot-free
      text and `stem` is neither empty nor ".", has extension `ext` and base
      name `stem`. */
  lemma ExtNameOfSuffixed(stem: string, ext: string)
    requires |stem| > 0 && stem != "." && |ext| > 0 && ext[0] == '.' && '.' !in ext[1..]
    ensures ExtName(stem + ext) == ext
    ensures BaseName(stem + ext, ext) == stem
  {
    var name := stem + ext;
    LastDotOfSuffixed(stem, ext);
    assert name != ".." by { assert |name| != 2 || stem == name[..1]; }
  }
}
