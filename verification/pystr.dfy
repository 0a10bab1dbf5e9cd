/**
 * The parts of Python's built-in string handling that the harness relies on:
 * `str.split()` with no separator, `int()` on a decimal token, `str()` of an
 * integer, and `os.path.splitext(os.path.basename(p))[0]`.
 */
module PyStr {
  import opened Wrappers

  /** The characters `str.isspace()` accepts, i.e. what `str.split()` splits on. */
  predicate IsSpace(c: char)
  {
    c == ' ' || c == '\t' || c == '\n' || c == '\r' || c == '\U{0B}' || c == '\U{0C}'
    || ('\U{1C}' <= c <= '\U{1F}') || c == '\U{85}' || c == '\U{A0}' || c == '\U{1680}'
    || ('\U{2000}' <= c <= '\U{200A}') || c == '\U{2028}' || c == '\U{2029}' || c == '\U{202F}'
    || c == '\U{205F}' || c == '\U{3000}'
  }

  /** A token as `str.split()` yields it: non-empty and free of whitespace. */
  predicate IsToken(w: string)
  {
    |w| > 0 && forall k :: 0 <= k < |w| ==> !IsSpace(w[k])
  }

  /** The longest prefix of `s` without whitespace. */
  function Word(s: string): (w: string)
    ensures |w| <= |s| && w == s[..|w|]
    ensures forall k :: 0 <= k < |w| ==> !IsSpace(w[k])
    ensures |w| < |s| ==> IsSpace(s[|w|])
    ensures s != [] && !IsSpace(s[0]) ==> |w| > 0
  {
    if s == [] || IsSpace(s[0]) then [] else [s[0]] + Word(s[1..])
  }

  /** `s.split()`: the maximal runs of non-whitespace characters, in order. */
  function Split(s: string): (ts: seq<string>)
    ensures forall k :: 0 <= k < |ts| ==> IsToken(ts[k])
    decreases |s|
  {
    if s == [] then []
    else if IsSpace(s[0]) then Split(s[1..])
    else
      var w := Word(s);
      [w] + Split(s[|w|..])
  }

  lemma {:induction false} WordBeforeSpace(w: string, rest: string)
    requires forall k :: 0 <= k < |w| ==> !IsSpace(w[k])
    requires rest == [] || IsSpace(rest[0])
    ensures Word(w + rest) == w
  {
    if w != [] {
      assert (w + rest)[1..] == w[1..] + rest;
      WordBeforeSpace(w[1..], rest);
    }
  }

  /** A token followed by whitespace (or nothing) splits off as one field. */
  lemma SplitToken(w: string, rest: string)
    requires IsToken(w)
    requires rest == [] || IsSpace(rest[0])
    ensures Split(w + rest) == [w] + Split(rest)
  {
    WordBeforeSpace(w, rest);
    assert (w + rest)[|w|..] == rest;
  }

  /** Joining tokens with single spaces and ending the line with a newline is undone by `split()`. */
  lemma {:induction false} SplitJoinedLine(ts: seq<string>)
    requires forall k :: 0 <= k < |ts| ==> IsToken(ts[k])
    ensures Split(JoinLine(ts)) == ts
  {
    if ts == [] {
      SplitLeadingSpace("\n");
    } else if |ts| == 1 {
      SplitToken(ts[0], "\n");
      SplitLeadingSpace("\n");
    } else {
      SplitJoinedLine(ts[1..]);
      SplitJoinedCons(ts);
    }
  }

  /** The inductive step: a token and a space in front of a line that splits back. */
  lemma SplitJoinedCons(ts: seq<string>)
    requires |ts| > 1 && IsToken(ts[0]) && Split(JoinLine(ts[1..])) == ts[1..]
    ensures Split(JoinLine(ts)) == ts
  {
    assert JoinLine(ts) == ts[0] + " " + JoinLine(ts[1..]);
    SplitTokenSpace(ts[0], JoinLine(ts[1..]));
  }

  /** A token followed by a single space splits off as one field. */
  lemma SplitTokenSpace(w: string, rest: string)
    requires IsToken(w)
    ensures Split(w + " " + rest) == [w] + Split(rest)
  {
    var tail := " " + rest;
    assert w + " " + rest == w + tail;
    SplitToken(w, tail);
    SplitLeadingSpace(tail);
    assert tail[1..] == rest;
  }

  lemma SplitLeadingSpace(s: string)
    requires s != [] && IsSpace(s[0])
    ensures Split(s) == Split(s[1..])
  {
  }

  /** The tokens separated by single spaces, followed by a newline: how the harness writes a line. */
  function JoinLine(ts: seq<string>): (r: string)
    ensures |r| > 0 && r[|r| - 1] == '\n'
  {
    if ts == [] then "\n"
    else if |ts| == 1 then ts[0] + "\n"
    else ts[0] + " " + JoinLine(ts[1..])
  }

  // ---------------------------------------------------------------------
  // str(i) and int(s) for decimal integers

  predicate IsDigit(c: char)
  {
    '0' <= c <= '9'
  }

  function DigitChar(d: nat): char
    requires d < 10
  {
    ['0', '1', '2', '3', '4', '5', '6', '7', '8', '9'][d]
  }

  /** `str(n)` for a natural number: decimal digits without leading zeros. */
  function NatToString(n: nat): (s: string)
    ensures |s| > 0 && IsDigit(s[0]) && IsDigit(s[|s| - 1])
    ensures forall k :: 0 <= k < |s| ==> IsDigit(s[k])
  {
    if n < 10 then [DigitChar(n)] else NatToString(n / 10) + [DigitChar(n % 10)]
  }

  /** `str(i)`: a minus sign for negative numbers, then the digits. */
  function IntToString(i: int): (s: string)
    ensures IsToken(s)
    ensures i < 0 <==> s[0] == '-'
  {
    if i < 0 then "-" + NatToString(-i) else NatToString(i)
  }

  /**
   * The literals `int()` accepts in base 10 (ASCII digits only): digits, with
   * single underscores allowed between two digits.
   */
  predicate IsNumeral(s: string)
  {
    |s| > 0 && IsDigit(s[0]) && IsDigit(s[|s| - 1])
    && (forall k :: 0 <= k < |s| ==> IsDigit(s[k]) || s[k] == '_')
    && (forall j, k :: 0 <= j < |s| && j < k < |s| && k == j + 1 && s[j] == '_' ==> s[k] != '_')
  }

  /** The value of a numeral, underscores ignored. */
  function NumeralValue(s: string): nat
    requires forall k :: 0 <= k < |s| ==> IsDigit(s[k]) || s[k] == '_'
  {
    if s == [] then 0
    else
      var c := s[|s| - 1];
      assert IsDigit(c) || c == '_';
      if c == '_' then NumeralValue(s[..|s| - 1])
      else NumeralValue(s[..|s| - 1]) * 10 + (c as int - '0' as int)
  }

  /** `int(s)` on a whitespace-free token: an optional sign, then a numeral; anything else raises. */
  function ParseInt(s: string): (r: Option<int>)
    ensures r.Some? <==> IsNumeral(s) || (|s| > 0 && (s[0] == '-' || s[0] == '+') && IsNumeral(s[1..]))
    ensures r.Some? && r.value < 0 ==> s[0] == '-'
  {
    if |s| > 0 && (s[0] == '-' || s[0] == '+') then
      var body := s[1..];
      if IsNumeral(body) then
        var v: int := NumeralValue(body);
        Some(if s[0] == '-' then -v else v)
      else None
    else if IsNumeral(s) then Some(NumeralValue(s))
    else None
  }

  lemma {:induction false} NatToStringValue(n: nat)
    ensures IsNumeral(NatToString(n)) && NumeralValue(NatToString(n)) == n
  {
    var s := NatToString(n);
    if n < 10 {
      assert s[..0] == [];
    } else {
      NatToStringValue(n / 10);
      assert s[..|s| - 1] == NatToString(n / 10);
    }
  }

  /** `int(str(i)) == i`: the decimal text written for a vertex reads back as the same vertex. */
  lemma IntToStringRoundTrip(i: int)
    ensures ParseInt(IntToString(i)) == Some(i)
  {
    if i < 0 {
      NegativeRoundTrip(i);
    } else {
      NatRoundTrip(i);
    }
  }

  lemma NegativeRoundTrip(i: int)
    requires i < 0
    ensures ParseInt(IntToString(i)) == Some(i)
  {
    var n: nat := -i;
    assert IntToString(i) == "-" + NatToString(n);
    NegatedNumeral(n);
  }

  /** The numeral of `n` behind a minus sign reads as `-n`. */
  lemma NegatedNumeral(n: nat)
    ensures ParseInt("-" + NatToString(n)) == Some(-(n as int))
  {
    NatToStringValue(n);
    ParseNegative(NatToString(n));
  }

  lemma NatRoundTrip(n: nat)
    ensures ParseInt(IntToString(n)) == Some(n)
  {
    assert IntToString(n) == NatToString(n);
    NatToStringValue(n);
    ParseNumeral(NatToString(n));
  }

  /** A bare numeral reads as its value. */
  lemma ParseNumeral(s: string)
    requires IsNumeral(s)
    ensures ParseInt(s) == Some(NumeralValue(s))
  {
    assert s[0] != '-' && s[0] != '+';
  }

  /** A minus sign in front of a numeral reads as the negated value. */
  lemma ParseNegative(s: string)
    requires IsNumeral(s)
    ensures ParseInt("-" + s) == Some(-(NumeralValue(s) as int))
  {
    var t := "-" + s;
    assert t[0] == '-' && t[1..] == s;
  }

  // ---------------------------------------------------------------------
  // os.path.splitext(os.path.basename(path))[0]

  /** Index of the last occurrence of `c` in `s`, or -1. */
  function LastIndexOf(s: string, c: char): (r: int)
    ensures -1 <= r < |s|
    ensures r >= 0 ==> s[r] == c
    ensures forall k :: r < k < |s| ==> s[k] != c
  {
    if s == [] then -1
    else if s[|s| - 1] == c then |s| - 1
    else LastIndexOf(s[..|s| - 1], c)
  }

  lemma NotInSuffix(s: string, c: char, i: int)
    requires -1 <= i < |s|
    requires forall k :: i < k < |s| ==> s[k] != c
    ensures c !in s[i + 1..]
  {
  }

  /** `os.path.basename`: everything after the last slash. */
  function Basename(p: string): (b: string)
    ensures '/' !in b
    ensures |b| <= |p| && b == p[|p| - |b|..]
    ensures |b| < |p| ==> p[|p| - |b| - 1] == '/'
  {
    var i := LastIndexOf(p, '/');
    NotInSuffix(p, '/', i);
    p[i + 1..]
  }

  /** Does `b[..d]` hold a character other than a dot? (`splitext` ignores leading dots.) */
  predicate HasNonDotBefore(b: string, d: nat)
    requires d <= |b|
  {
    exists k :: 0 <= k < d && b[k] != '.'
  }

  /** `os.path.splitext(b)[0]` for a name without slashes. */
  function StripExtension(b: string): (r: string)
    ensures |r| <= |b| && r == b[..|r|]
    ensures r == b || (|r| < |b| && b[|r|] == '.' && '.' !in b[|r| + 1..] && HasNonDotBefore(b, |r|))
    ensures var d := LastIndexOf(b, '.');
            if d >= 0 && HasNonDotBefore(b, d) then r == b[..d] else r == b
  {
    var d := LastIndexOf(b, '.');
    if d > 0 && HasNonDotBefore(b, d) then
      NotInSuffix(b, '.', d);
      b[..d]
    else b
  }

  /** `filename(path)` in the harness: the base name without its extension. */
  function Filename(path: string): (r: string)
    ensures '/' !in r
    ensures |r| <= |Basename(path)| && r == Basename(path)[..|r|]
  {
    StripExtension(Basename(path))
  }

  /**
   * The harness names a graph `<stem>.txt` after `filename` of its source and
   * later recovers the stem the same way, from the bare name: for a stem
   * without slashes holding some character other than a dot,
   * `filename(stem + "." + ext)` is the stem.
   */
  lemma FilenameOfName(stem: string, ext: string)
    requires '/' !in stem && '/' !in ext && '.' !in ext
    requires exists k :: 0 <= k < |stem| && stem[k] != '.'
    ensures Filename(stem + "." + ext) == stem
  {
    var name := stem + "." + ext;
    assert '/' !in name by {
      assert forall k :: 0 <= k < |name| ==> name[k] == (if k < |stem| then stem[k] else if k == |stem| then '.' else ext[k - |stem| - 1]);
    }
    assert Basename(name) == name;
    var d := LastIndexOf(name, '.');
    assert name[|stem|] == '.';
    assert d == |stem|;
    var k :| 0 <= k < |stem| && stem[k] != '.';
    assert name[k] == stem[k];
    assert HasNonDotBefore(name, d);
    assert name[..d] == stem;
  }

  /**
   * The same with a directory in front: `filename(dir + "/" + stem + "." + ext)`
   * is the stem, whatever the directory.
   */
  lemma FilenameOfJoin(dir: string, stem: string, ext: string)
    requires '/' !in stem && '/' !in ext && '.' !in ext
    requires exists k :: 0 <= k < |stem| && stem[k] != '.'
    ensures Filename(dir + "/" + stem + "." + ext) == stem
  {
    var p := dir + "/" + stem + "." + ext;
    var name := stem + "." + ext;
    assert p == (dir + "/") + name;
    var i := LastIndexOf(p, '/');
    assert p[|dir|] == '/';
    assert i == |dir|;
    assert Basename(p) == name;
    var d := LastIndexOf(name, '.');
    assert name[|stem|] == '.';
    assert d == |stem|;
    var k :| 0 <= k < |stem| && stem[k] != '.';
    assert name[k] == stem[k];
    assert HasNonDotBefore(name, d);
    assert name[..d] == stem;
  }
}
