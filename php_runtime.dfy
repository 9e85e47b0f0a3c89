/**
 * The slice of PHP's runtime that the plugins lean on, stated on Dafny values:
 * empty() and truthiness of strings, trim(), strtolower(), strpos() used as a
 * substring test, explode()/implode(), str_replace(), array_filter(), and the two
 * uses of the regular expression /\s+/ (preg_split and preg_replace).
 * Strings are sequences of characters; PHP's byte strings are read as ASCII.
 */
module PhpRuntime {

  datatype Option<T> = None | Some(value: T) {
    function GetOr(default: T): T {
      if Some? then value else default
    }
  }

  /** empty($s) on a string: the empty string and "0" are empty. */
  predicate EmptyString(s: string) {
    s == "" || s == "0"
  }

  /** A string used as a condition (`if ($s)`) is true exactly when it is not empty(). */
  predicate Truthy(s: string) {
    !EmptyString(s)
  }

  /** empty($array['key']) where the key may be missing. */
  predicate EmptyEntry(v: Option<string>) {
    v.None? || EmptyString(v.value)
  }

  // ---------------------------------------------------------------------------
  // Character classes

  /** The characters trim() strips by default: " \t\n\r\0\x0B". */
  predicate IsTrimChar(c: char) {
    c == ' ' || c == '\t' || c == '\n' || c == '\r' || c == '\0' || c == '\U{000B}'
  }

  /** The class \s of PCRE: space, \t, \n, \x0B, \f and \r. */
  predicate IsSpace(c: char) {
    c == ' ' || ('\t' <= c <= '\r')
  }

  function LowerChar(c: char): char {
    if 'A' <= c <= 'Z' then (c as int + 32) as char else c
  }

  // ---------------------------------------------------------------------------
  // trim()

  function TrimLeft(s: string): (r: string)
    ensures |r| <= |s| && r == s[|s| - |r|..]
    ensures r == [] || !IsTrimChar(r[0])
    ensures forall k :: 0 <= k < |s| - |r| ==> IsTrimChar(s[k])
  {
    if s != [] && IsTrimChar(s[0]) then TrimLeft(s[1..]) else s
  }

  function TrimRight(s: string): (r: string)
    ensures |r| <= |s| && r == s[..|r|]
    ensures r == [] || !IsTrimChar(r[|r| - 1])
    ensures forall k :: |r| <= k < |s| ==> IsTrimChar(s[k])
  {
    if s != [] && IsTrimChar(s[|s| - 1]) then TrimRight(s[..|s| - 1]) else s
  }

  /** trim($s): strip trim characters from both ends. */
  function Trim(s: string): (r: string)
    ensures |r| <= |s|
    ensures r == [] || (!IsTrimChar(r[0]) && !IsTrimChar(r[|r| - 1]))
  {
    TrimLeft(TrimRight(s))
  }

  /** What trim() returns is the piece of its input at i, and only trim characters were cut on either side. */
  lemma TrimIsInfix(s: string) returns (i: nat)
    ensures i + |Trim(s)| <= |s| && s[i..i + |Trim(s)|] == Trim(s)
    ensures forall k :: 0 <= k < i ==> IsTrimChar(s[k])
    ensures forall k :: i + |Trim(s)| <= k < |s| ==> IsTrimChar(s[k])
  {
    var right := TrimRight(s);
    var r := TrimLeft(right);
    assert r == Trim(s);
    i := |right| - |r|;
    assert right == s[..|right|];
    assert r == right[i..];
    forall k | 0 <= k < i
      ensures IsTrimChar(s[k])
    {
      assert s[k] == right[k];
    }
  }

  /** Trimming twice is trimming once. */
  lemma TrimIdempotent(s: string)
    ensures Trim(Trim(s)) == Trim(s)
  {
    var t := Trim(s);
    assert TrimRight(t) == t;
    assert TrimLeft(t) == t;
  }

  /** A space appended before trimming makes no difference. */
  lemma TrimTrailingSpace(s: string)
    ensures Trim(s + " ") == Trim(s)
  {
    assert (s + " ")[..|s|] == s;
    assert TrimRight(s + " ") == TrimRight(s);
  }

  /** A word with no trim character at either end shields what follows it from trim's left side. */
  lemma {:induction false} TrimRightAfterWord(w: string, s: string)
    requires w != [] && !IsTrimChar(w[|w| - 1])
    ensures TrimRight(w + s) == w + TrimRight(s)
    decreases |s|
  {
    if s == [] {
      assert w + s == w;
    } else if IsTrimChar(s[|s| - 1]) {
      assert (w + s)[..|w + s| - 1] == w + s[..|s| - 1];
      TrimRightAfterWord(w, s[..|s| - 1]);
    }
  }

  /** trim() of a word and a tail keeps the word and trims only the tail's right end. */
  lemma TrimAfterWord(w: string, s: string)
    requires w != [] && !IsTrimChar(w[0]) && !IsTrimChar(w[|w| - 1])
    ensures Trim(w + s) == w + TrimRight(s)
  {
    TrimRightAfterWord(w, s);
    assert (w + TrimRight(s))[0] == w[0];
  }

  // ---------------------------------------------------------------------------
  // strtolower() (ASCII only, as PHP 8 does)

  function ToLower(s: string): (r: string)
    ensures |r| == |s|
    ensures forall k :: 0 <= k < |s| ==> r[k] == LowerChar(s[k])
  {
    if s == [] then [] else [LowerChar(s[0])] + ToLower(s[1..])
  }

  // ---------------------------------------------------------------------------
  // Substrings: strpos($s, $sub) !== false, str_starts_with

  predicate StartsWith(s: string, prefix: string) {
    |prefix| <= |s| && s[..|prefix|] == prefix
  }

  predicate OccursAt(s: string, sub: string, i: nat) {
    i + |sub| <= |s| && s[i..i + |sub|] == sub
  }

  /** strpos($s, $sub) !== false. */
  predicate Contains(s: string, sub: string) {
    exists i: nat | i <= |s| :: OccursAt(s, sub, i)
  }

  /** A substring of a substring is a substring. */
  lemma ContainsTransitive(s: string, mid: string, sub: string)
    requires Contains(s, mid) && Contains(mid, sub)
    ensures Contains(s, sub)
  {
    var i: nat :| i <= |s| && OccursAt(s, mid, i);
    var j: nat :| j <= |mid| && OccursAt(mid, sub, j);
    assert forall k :: 0 <= k < |sub| ==> s[i + j + k] == mid[j + k] == sub[k];
    assert OccursAt(s, sub, i + j);
  }

  /** A common prefix can be cancelled. */
  lemma PrefixCancel(p: string, x: string, y: string)
    requires p + x == p + y
    ensures x == y
  {
    assert x == (p + x)[|p|..];
    assert y == (p + y)[|p|..];
  }

  /**
   * Two words free of the delimiter d, each followed by a tail that starts with d:
   * if the concatenations are equal, so are the words and the tails.
   */
  lemma DelimitedSplit(f1: string, t1: string, f2: string, t2: string, d: char)
    requires d !in f1 && d !in f2
    requires |t1| > 0 && |t2| > 0 && t1[0] == d && t2[0] == d
    requires f1 + t1 == f2 + t2
    ensures f1 == f2 && t1 == t2
  {
    var m := if |f1| <= |f2| then |f1| else |f2|;
    assert (f1 + t1)[m] == (f2 + t2)[m];
    assert f1 == (f1 + t1)[..|f1|];
    assert f2 == (f2 + t2)[..|f2|];
    assert t1 == (f1 + t1)[|f1|..];
    assert t2 == (f2 + t2)[|f2|..];
  }

  // ---------------------------------------------------------------------------
  // str_replace($from, $to, $s): left-to-right, non-overlapping

  function ReplaceAll(s: string, from: string, to: string): string
    requires from != []
    decreases |s|
  {
    if |s| < |from| then s
    else if s[..|from|] == from then to + ReplaceAll(s[|from|..], from, to)
    else [s[0]] + ReplaceAll(s[1..], from, to)
  }

  /** When the pattern does not occur, str_replace changes nothing. */
  lemma {:induction false} ReplaceAllAbsent(s: string, from: string, to: string)
    requires from != [] && !Contains(s, from)
    ensures ReplaceAll(s, from, to) == s
    decreases |s|
  {
    if |s| >= |from| {
      assert !OccursAt(s, from, 0);
      forall i: nat | i <= |s[1..]| && OccursAt(s[1..], from, i)
        ensures false
      {
        assert s[1..][i..i + |from|] == s[i + 1..i + 1 + |from|];
        assert OccursAt(s, from, i + 1);
      }
      ReplaceAllAbsent(s[1..], from, to);
    }
  }

  /** When the pattern occurs, the replacement occurs in the result. */
  lemma {:induction false} ReplaceAllIntroduces(s: string, from: string, to: string)
    requires from != [] && Contains(s, from)
    ensures Contains(ReplaceAll(s, from, to), to)
    decreases |s|
  {
    var r := ReplaceAll(s, from, to);
    var i: nat :| i <= |s| && OccursAt(s, from, i);
    if s[..|from|] == from {
      assert r[..|to|] == to;
      assert OccursAt(r, to, 0);
    } else {
      assert i != 0;
      assert s[1..][i - 1..i - 1 + |from|] == s[i..i + |from|];
      assert OccursAt(s[1..], from, i - 1);
      ReplaceAllIntroduces(s[1..], from, to);
      var rest := ReplaceAll(s[1..], from, to);
      var k: nat :| k <= |rest| && OccursAt(rest, to, k);
      assert r == [s[0]] + rest;
      assert r[k + 1..k + 1 + |to|] == rest[k..k + |to|];
      assert OccursAt(r, to, k + 1);
    }
  }

  // ---------------------------------------------------------------------------
  // explode() / implode()

  /** implode($sep, $parts). */
  function Join(parts: seq<string>, sep: string): string {
    if parts == [] then ""
    else if |parts| == 1 then parts[0]
    else parts[0] + sep + Join(parts[1..], sep)
  }

  /** explode($d, $s) with a one-character delimiter: never empty, no piece holds the delimiter. */
  function Split(s: string, d: char): (r: seq<string>)
    ensures |r| >= 1
    ensures forall k :: 0 <= k < |r| ==> d !in r[k]
  {
    if s == [] then [""]
    else
      var rest := Split(s[1..], d);
      if s[0] == d then [""] + rest else [[s[0]] + rest[0]] + rest[1..]
  }

  /** implode(d, explode(d, s)) == s. */
  lemma {:induction false} JoinSplit(s: string, d: char)
    ensures Join(Split(s, d), [d]) == s
  {
    if s != [] {
      var rest := Split(s[1..], d);
      JoinSplit(s[1..], d);
      if s[0] != d && |rest| > 1 {
        assert Join(rest, [d]) == rest[0] + [d] + Join(rest[1..], [d]);
      }
    }
  }

  // ---------------------------------------------------------------------------
  // array_filter() (order kept) and array_map()

  function Filter<T>(s: seq<T>, p: T -> bool): (r: seq<T>)
    ensures |r| <= |s|
    ensures forall k :: 0 <= k < |r| ==> p(r[k])
  {
    if s == [] then [] else (if p(s[0]) then [s[0]] else []) + Filter(s[1..], p)
  }

  /** What array_filter keeps: exactly the elements that pass the test. */
  lemma {:induction false} FilterMembers<T>(s: seq<T>, p: T -> bool, x: T)
    ensures x in Filter(s, p) <==> x in s && p(x)
  {
    if s != [] {
      FilterMembers(s[1..], p, x);
      assert s == [s[0]] + s[1..];
    }
  }

  /** Filtering is done element by element: it distributes over concatenation. */
  lemma {:induction false} FilterConcat<T>(a: seq<T>, b: seq<T>, p: T -> bool)
    ensures Filter(a + b, p) == Filter(a, p) + Filter(b, p)
  {
    if a != [] {
      var head := if p(a[0]) then [a[0]] else [];
      assert (a + b)[0] == a[0];
      assert (a + b)[1..] == a[1..] + b;
      FilterConcat(a[1..], b, p);
      calc {
        Filter(a + b, p);
        head + Filter(a[1..] + b, p);
        head + (Filter(a[1..], p) + Filter(b, p));
        (head + Filter(a[1..], p)) + Filter(b, p);
      }
    } else {
      assert a + b == b;
    }
  }

  /** A filter that keeps everything is the identity. */
  lemma {:induction false} FilterAll<T>(s: seq<T>, p: T -> bool)
    requires forall k :: 0 <= k < |s| ==> p(s[k])
    ensures Filter(s, p) == s
  {
    if s != [] {
      FilterAll(s[1..], p);
    }
  }

  predicate NoDuplicates<T(==)>(s: seq<T>) {
    forall i, j :: 0 <= i < j < |s| ==> s[i] != s[j]
  }

  // ---------------------------------------------------------------------------
  // /\s+/: preg_split and preg_replace with ' '

  /** The input without its leading run of \s characters. */
  function DropSpaces(s: string): (r: string)
    ensures |r| <= |s| && r == s[|s| - |r|..]
    ensures r == [] || !IsSpace(r[0])
  {
    if s != [] && IsSpace(s[0]) then DropSpaces(s[1..]) else s
  }

  /** preg_replace('/\s+/', ' ', $s): every maximal run of \s becomes one space. */
  function CollapseSpaces(s: string): (r: string)
    ensures s == [] || !IsSpace(s[0]) ==> r == [] || !IsSpace(r[0])
    decreases |s|
  {
    if s == [] then []
    else if IsSpace(s[0]) then " " + CollapseSpaces(DropSpaces(s))
    else [s[0]] + CollapseSpaces(s[1..])
  }

  /** preg_split('/\s+/', $s): the pieces between maximal runs of \s. */
  function SplitSpaces(s: string): (r: seq<string>)
    ensures |r| >= 1
    ensures forall k, j :: 0 <= k < |r| && 0 <= j < |r[k]| ==> !IsSpace(r[k][j])
    decreases |s|
  {
    if s == [] then [""]
    else if IsSpace(s[0]) then [""] + SplitSpaces(DropSpaces(s))
    else
      var rest := SplitSpaces(s[1..]);
      [[s[0]] + rest[0]] + rest[1..]
  }

  /** Collapsing leaves no two \s characters side by side, and the only \s left is ' '. */
  lemma {:induction false} CollapseSpacesShape(s: string)
    ensures forall k :: 0 <= k < |CollapseSpaces(s)| && IsSpace(CollapseSpaces(s)[k]) ==> CollapseSpaces(s)[k] == ' '
    ensures forall k :: 0 <= k < |CollapseSpaces(s)| - 1 ==> !(IsSpace(CollapseSpaces(s)[k]) && IsSpace(CollapseSpaces(s)[k + 1]))
    decreases |s|
  {
    if s != [] {
      var r := CollapseSpaces(s);
      if IsSpace(s[0]) {
        var t := DropSpaces(s);
        CollapseSpacesShape(t);
        assert r == " " + CollapseSpaces(t);
      } else {
        CollapseSpacesShape(s[1..]);
        assert r == [s[0]] + CollapseSpaces(s[1..]);
      }
    }
  }

  /** Collapsing touches only whitespace: the other characters stay, in order. */
  lemma {:induction false} CollapseSpacesKeepsText(s: string)
    ensures Filter(CollapseSpaces(s), c => !IsSpace(c)) == Filter(s, c => !IsSpace(c))
    decreases |s|
  {
    var keep := (c: char) => !IsSpace(c);
    if s != [] {
      if IsSpace(s[0]) {
        var t := DropSpaces(s);
        CollapseSpacesKeepsText(t);
        DroppedSpacesAreFiltered(s);
        FilterConcat(" ", CollapseSpaces(t), keep);
      } else {
        CollapseSpacesKeepsText(s[1..]);
        FilterConcat([s[0]], CollapseSpaces(s[1..]), keep);
      }
    }
  }

  lemma {:induction false} DroppedSpacesAreFiltered(s: string)
    ensures Filter(s, c => !IsSpace(c)) == Filter(DropSpaces(s), c => !IsSpace(c))
    decreases |s|
  {
    if s != [] && IsSpace(s[0]) {
      DroppedSpacesAreFiltered(s[1..]);
    }
  }

  /** implode(' ', preg_split('/\s+/', $s)) == preg_replace('/\s+/', ' ', $s). */
  lemma {:induction false} JoinSplitSpaces(s: string)
    ensures Join(SplitSpaces(s), " ") == CollapseSpaces(s)
    decreases |s|
  {
    if s != [] {
      if IsSpace(s[0]) {
        JoinSplitSpaces(DropSpaces(s));
      } else {
        var rest := SplitSpaces(s[1..]);
        JoinSplitSpaces(s[1..]);
        if |rest| > 1 {
          assert Join(rest, " ") == rest[0] + " " + Join(rest[1..], " ");
        }
      }
    }
  }
}
