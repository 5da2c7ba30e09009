/**
  String primitives with Python semantics: `str.strip`, `str.strip(chars)`,
  `str.replace(old, "")`, `re.sub(r"\s+", "", s)`, `",".join`, `str.split(",")`,
  `str.startswith` and the code-point ordering that `max` uses on strings.
  Strings are sequences of code points.
 */
module Text {

  /** Python's `str.isspace` (and `\s` in a `re` pattern on str): the Unicode whitespace code points. */
  predicate IsSpace(c: char)
  {
    || ('\t' <= c <= '\r')
    || ('\U{1c}' <= c <= '\U{1f}')
    || c == ' ' || c == '\U{85}' || c == '\U{a0}' || c == '\U{1680}'
    || ('\U{2000}' <= c <= '\U{200a}')
    || c == '\U{2028}' || c == '\U{2029}' || c == '\U{202f}' || c == '\U{205f}' || c == '\U{3000}'
  }

  predicate NoSpace(s: string)
  {
    forall c :: c in s ==> !IsSpace(c)
  }

  /** The argument of Python's `strip`: none (whitespace) or an explicit set of characters. */
  datatype StripSet = Whitespace | Chars(cs: set<char>)

  predicate Drops(d: StripSet, c: char)
  {
    match d
    case Whitespace => IsSpace(c)
    case Chars(cs) => c in cs
  }

  /** Drops leading characters of `d`. */
  function TrimLeft(s: string, d: StripSet): (r: string)
    ensures |r| <= |s| && r == s[|s| - |r|..]
    ensures r == [] || !Drops(d, r[0])
  {
    if s == [] || !Drops(d, s[0]) then s else TrimLeft(s[1..], d)
  }

  /** Drops trailing characters of `d`. */
  function TrimRight(s: string, d: StripSet): (r: string)
    ensures |r| <= |s| && r == s[..|r|]
    ensures r == [] || !Drops(d, r[|r| - 1])
  {
    if s == [] || !Drops(d, s[|s| - 1]) then s else TrimRight(s[..|s| - 1], d)
  }

  /** Python `s.strip()` (for `Whitespace`) and `s.strip(chars)` (for `Chars(chars)`). */
  function StripBy(s: string, d: StripSet): (r: string)
    ensures r == [] || (!Drops(d, r[0]) && !Drops(d, r[|r| - 1]))
  {
    TrimRight(TrimLeft(s, d), d)
  }

  /** Every character of a stripped string comes from the original. */
  lemma StripByWithin(s: string, d: StripSet)
    ensures forall c :: c in StripBy(s, d) ==> c in s
  {
    var l := TrimLeft(s, d);
    var r := TrimRight(l, d);
    SliceChars(s, |s| - |l|, |s| - |l| + |r|);
    assert r == s[|s| - |l|..|s| - |l| + |r|];
  }

  lemma SliceChars(s: string, a: nat, b: nat)
    requires a <= b <= |s|
    ensures forall c :: c in s[a..b] ==> c in s
  {
    forall c | c in s[a..b] ensures c in s {
      var i :| 0 <= i < b - a && s[a..b][i] == c;
      assert s[a + i] == c;
    }
  }

  /** Stripping characters that do not sit at either end changes nothing. */
  lemma StripByUnchanged(s: string, d: StripSet)
    requires s == [] || (!Drops(d, s[0]) && !Drops(d, s[|s| - 1]))
    ensures StripBy(s, d) == s
  {
  }

  /** Python `s.strip()`. */
  function Strip(s: string): string
  {
    StripBy(s, Whitespace)
  }

  /** A string that is its own strip: no whitespace at either end. */
  lemma StripNoSpaceEnds(s: string)
    requires s == [] || (!IsSpace(s[0]) && !IsSpace(s[|s| - 1]))
    ensures Strip(s) == s
  {
  }

  /** Python `re.sub(r"\s+", "", s)`: removes every whitespace character. */
  function RemoveSpaces(s: string): (r: string)
    ensures NoSpace(r)
    ensures NoSpace(s) ==> r == s
  {
    if s == [] then []
    else if IsSpace(s[0]) then RemoveSpaces(s[1..])
    else [s[0]] + RemoveSpaces(s[1..])
  }

  /** Every character left by `RemoveSpaces` comes from the original. */
  lemma {:induction false} RemoveSpacesWithin(s: string)
    ensures forall c :: c in RemoveSpaces(s) ==> c in s
  {
    if s != [] {
      RemoveSpacesWithin(s[1..]);
      assert forall c :: c in s[1..] ==> c in s;
    }
  }

  /** Python `s.replace(a, b)` for single characters `a` and `b`. */
  function ReplaceChar(s: string, a: char, b: char): (r: string)
    ensures |r| == |s|
    ensures forall i :: 0 <= i < |s| ==> r[i] == (if s[i] == a then b else s[i])
  {
    seq(|s|, i requires 0 <= i < |s| => if s[i] == a then b else s[i])
  }

  /** `pat` occurs in `s` starting at index `i`. */
  predicate OccursAt(s: string, pat: string, i: int)
  {
    0 <= i && i + |pat| <= |s| && s[i..i + |pat|] == pat
  }

  ghost predicate Contains(s: string, pat: string)
  {
    exists i :: OccursAt(s, pat, i)
  }

  /**
    Python `s.replace(pat, "")`: scans left to right, removes each
    non-overlapping occurrence and does not rescan the text it has produced.
   */
  function RemoveAll(s: string, pat: string): (r: string)
    requires pat != []
    decreases |s|
  {
    if |s| < |pat| then s
    else if s[..|pat|] == pat then RemoveAll(s[|pat|..], pat)
    else [s[0]] + RemoveAll(s[1..], pat)
  }

  /** Every character of `RemoveAll(s, pat)` comes from `s`. */
  lemma {:induction false} RemoveAllChars(s: string, pat: string)
    requires pat != []
    ensures forall c :: c in RemoveAll(s, pat) ==> c in s
    decreases |s|
  {
    if |s| < |pat| {
    } else if s[..|pat|] == pat {
      RemoveAllChars(s[|pat|..], pat);
    } else {
      RemoveAllChars(s[1..], pat);
    }
  }

  /** Removing a pattern that does not occur changes nothing. */
  lemma {:induction false} RemoveAllAbsent(s: string, pat: string)
    requires pat != [] && !Contains(s, pat)
    ensures RemoveAll(s, pat) == s
    decreases |s|
  {
    if |s| < |pat| {
    } else {
      assert !OccursAt(s, pat, 0);
      assert s[..|pat|] != pat;
      forall i | OccursAt(s[1..], pat, i) ensures OccursAt(s, pat, i + 1) {
        assert s[1..][i..i + |pat|] == s[i + 1..i + 1 + |pat|];
      }
      RemoveAllAbsent(s[1..], pat);
    }
  }

  /** A string without `pat` has no occurrence of any longer string that starts with `pat`. */
  lemma AbsentExtension(s: string, pat: string, ext: string)
    requires !Contains(s, pat) && |pat| <= |ext| && ext[..|pat|] == pat
    ensures !Contains(s, ext)
  {
    forall i ensures !OccursAt(s, ext, i) {
      if 0 <= i && i + |ext| <= |s| {
        assert !OccursAt(s, pat, i);
        assert s[i..i + |ext|][..|pat|] == s[i..i + |pat|];
      }
    }
  }

  /** Python `s.startswith(prefix)`. */
  predicate StartsWith(s: string, prefix: string)
  {
    |prefix| <= |s| && s[..|prefix|] == prefix
  }

  /** The non-empty names of a list, in order: `[p for p in names if p]`. */
  function NonEmpty(names: seq<string>): (r: seq<string>)
    ensures forall p :: p in r <==> p in names && p != ""
    ensures |r| <= |names|
  {
    if names == [] then []
    else if names[0] == "" then NonEmpty(names[1..])
    else [names[0]] + NonEmpty(names[1..])
  }

  /** Python `sep.join(parts)` for a one-character separator. */
  function Join(parts: seq<string>, sep: char): string
  {
    if parts == [] then ""
    else if |parts| == 1 then parts[0]
    else parts[0] + [sep] + Join(parts[1..], sep)
  }

  /** Python `s.split(sep)` for a one-character separator: always at least one piece. */
  function Split(s: string, sep: char): (r: seq<string>)
    ensures |r| >= 1
    ensures forall p :: p in r ==> sep !in p
    decreases |s|
  {
    if sep !in s then [s]
    else
      var i := IndexOf(s, sep);
      [s[..i]] + Split(s[i + 1..], sep)
  }

  /** Index of the first occurrence of `c` in `s`. */
  function IndexOf(s: string, c: char): (i: nat)
    requires c in s
    ensures i < |s| && s[i] == c && c !in s[..i]
  {
    if s[0] == c then 0 else 1 + IndexOf(s[1..], c)
  }

  lemma {:induction false} IndexOfFirst(s: string, c: char, k: nat)
    requires k < |s| && s[k] == c && c !in s[..k]
    ensures IndexOf(s, c) == k
  {
    if k > 0 {
      assert s[..k][0] == s[0];
      assert s[1..][..k - 1] == s[1..k];
      IndexOfFirst(s[1..], c, k - 1);
    }
  }

  /** The partner cell read back: `[p for p in s.split(",") if p]`. */
  function SplitNames(s: string): (r: seq<string>)
    ensures forall p :: p in r ==> p != "" && ',' !in p
  {
    NonEmpty(Split(s, ','))
  }

  /** The partner cell written: `",".join([p for p in names if p])`. */
  function JoinNames(names: seq<string>): string
  {
    Join(NonEmpty(names), ',')
  }

  lemma {:induction false} SplitJoin(parts: seq<string>, sep: char)
    requires parts != []
    requires forall p :: p in parts ==> sep !in p
    ensures Split(Join(parts, sep), sep) == parts
    decreases |parts|
  {
    if |parts| == 1 {
    } else {
      var j := parts[0] + [sep] + Join(parts[1..], sep);
      assert j == Join(parts, sep);
      assert j[|parts[0]|] == sep;
      assert j[..|parts[0]|] == parts[0];
      IndexOfFirst(j, sep, |parts[0]|);
      assert j[|parts[0]| + 1..] == Join(parts[1..], sep);
      SplitJoin(parts[1..], sep);
    }
  }

  /** Non-empty comma-free names survive being written to a partner cell and read back. */
  lemma JoinThenSplitNames(names: seq<string>)
    requires forall p :: p in names ==> ',' !in p
    ensures SplitNames(JoinNames(names)) == NonEmpty(names)
  {
    var parts := NonEmpty(names);
    if parts == [] {
      assert Split("", ',') == [""];
    } else {
      SplitJoin(parts, ',');
      NonEmptyOfNonEmpty(parts);
    }
  }

  lemma {:induction false} NonEmptyOfNonEmpty(names: seq<string>)
    requires forall p :: p in names ==> p != ""
    ensures NonEmpty(names) == names
  {
    if names != [] {
      assert names[0] in names;
      assert forall p :: p in names[1..] ==> p in names;
      NonEmptyOfNonEmpty(names[1..]);
    }
  }

  /** Python's string ordering: lexicographic on code points. */
  predicate LexLe(a: string, b: string)
    decreases |a|
  {
    a == [] || (b != [] && (a[0] < b[0] || (a[0] == b[0] && LexLe(a[1..], b[1..]))))
  }

  lemma {:induction false} LexLeTotal(a: string, b: string)
    ensures LexLe(a, b) || LexLe(b, a)
    decreases |a|
  {
    if a != [] && b != [] && a[0] == b[0] {
      LexLeTotal(a[1..], b[1..]);
    }
  }

  lemma {:induction false} LexLeTrans(a: string, b: string, c: string)
    requires LexLe(a, b) && LexLe(b, c)
    ensures LexLe(a, c)
    decreases |a|
  {
    if a != [] && b != [] && c != [] && a[0] == b[0] && b[0] == c[0] {
      LexLeTrans(a[1..], b[1..], c[1..]);
    }
  }

  /** Two strings each at or below the other are equal. */
  lemma {:induction false} LexLeAntisym(a: string, b: string)
    requires LexLe(a, b) && LexLe(b, a)
    ensures a == b
    decreases |a|
  {
    if a != [] {
      LexLeAntisym(a[1..], b[1..]);
      assert a == [a[0]] + a[1..] && b == [b[0]] + b[1..];
    }
  }

  /** Python `max(values)` on a non-empty list of strings. */
  function MaxString(values: seq<string>): (m: string)
    requires values != []
    ensures m in values
    ensures forall v :: v in values ==> LexLe(v, m)
  {
    if |values| == 1 then
      LexLeTotal(values[0], values[0]);
      values[0]
    else
      var rest := MaxString(values[1..]);
      MaxStep(values, rest);
      if LexLe(values[0], rest) then rest else values[0]
  }

  lemma MaxStep(values: seq<string>, rest: string)
    requires |values| > 1
    requires forall v :: v in values[1..] ==> LexLe(v, rest)
    ensures LexLe(values[0], rest) ==> forall v :: v in values ==> LexLe(v, rest)
    ensures !LexLe(values[0], rest) ==> forall v :: v in values ==> LexLe(v, values[0])
  {
    LexLeTotal(values[0], rest);
    LexLeTotal(values[0], values[0]);
    forall v | v in values[1..] && !LexLe(values[0], rest) ensures LexLe(v, values[0]) {
      LexLeTrans(v, rest, values[0]);
    }
    assert forall v :: v in values ==> v == values[0] || v in values[1..];
  }

  /** Decimal text of an integer, as the sheet stores `int(points)`. */
  function IntToString(n: int): (s: string)
    ensures s != []
  {
    if n < 0 then "-" + NatToString(-n) else NatToString(n)
  }

  function NatToString(n: nat): (s: string)
    ensures s != []
    ensures forall c :: c in s ==> '0' <= c <= '9'
  {
    var d := ['0' + (n % 10) as char];
    if n < 10 then d else NatToString(n / 10) + d
  }
}
