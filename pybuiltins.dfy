// The few Python built-ins the Morse core relies on, stated with the
// semantics CPython gives them: `None`, `str.strip()`, `str.split(sep)`,
// `str.split()`, `sep.join(words)` and `str.upper()` (ASCII part).

module PyBuiltins {

  /** Python's `None` next to an ordinary value. */
  datatype Option<T> = None | Some(value: T)

  // ---------------------------------------------------------------------
  // Whitespace
  // ---------------------------------------------------------------------

  /** `c.isspace()`: the characters CPython treats as whitespace in
      `strip()` and the argument-less `split()`. */
  predicate IsSpace(c: char) {
    || c == ' '
    || ('\t' <= c <= '\r')                  // \t \n \v \f \r
    || ('\U{1C}' <= c <= '\U{1F}')          // file/group/record/unit separators
    || c == '\U{85}' || c == '\U{A0}' || c == '\U{1680}'
    || ('\U{2000}' <= c <= '\U{200A}')
    || c == '\U{2028}' || c == '\U{2029}' || c == '\U{202F}'
    || c == '\U{205F}' || c == '\U{3000}'
  }

  ghost predicate AllSpace(s: string) {
    forall k :: 0 <= k < |s| ==> IsSpace(s[k])
  }

  ghost predicate NoSpace(s: string) {
    forall k :: 0 <= k < |s| ==> !IsSpace(s[k])
  }

  // ---------------------------------------------------------------------
  // str.strip()
  // ---------------------------------------------------------------------

  /** Number of whitespace characters at the start of `s`. */
  function LeadingSpaces(s: string): (n: nat)
    ensures n <= |s|
    ensures AllSpace(s[..n])
    ensures n < |s| ==> !IsSpace(s[n])
  {
    if s != [] && IsSpace(s[0]) then 1 + LeadingSpaces(s[1..]) else 0
  }

  /** Number of whitespace characters at the end of `s`. */
  function TrailingSpaces(s: string): (n: nat)
    ensures n <= |s|
    ensures AllSpace(s[|s| - n..])
    ensures n < |s| ==> !IsSpace(s[|s| - 1 - n])
  {
    if s != [] && IsSpace(s[|s| - 1]) then 1 + TrailingSpaces(s[..|s| - 1]) else 0
  }

  /** `s.strip()`: the slice of `s` left once the whitespace at both ends is
      removed; it starts right after the leading whitespace, and nothing but
      whitespace follows it. */
  function Strip(s: string): (r: string)
    ensures LeadingSpaces(s) + |r| <= |s|
    ensures r == s[LeadingSpaces(s)..LeadingSpaces(s) + |r|]
    ensures AllSpace(s[LeadingSpaces(s) + |r|..])
    ensures r != [] ==> !IsSpace(r[0]) && !IsSpace(r[|r| - 1])
  {
    var t := s[LeadingSpaces(s)..];
    assert t != [] ==> t[0] == s[LeadingSpaces(s)];
    t[..|t| - TrailingSpaces(t)]
  }

  // ---------------------------------------------------------------------
  // str.split(sep) and sep.join(words)
  // ---------------------------------------------------------------------

  /** `sep` occurs in `s` starting at index `k`. */
  predicate OccursAt(s: string, sep: string, k: nat) {
    k + |sep| <= |s| && s[k..k + |sep|] == sep
  }

  ghost predicate Free(s: string, sep: string) {
    forall k: nat :: !OccursAt(s, sep, k)
  }

  /** `s.find(sep)`: the first index where `sep` occurs, or None. */
  function Find(s: string, sep: string): (r: Option<nat>)
    requires |sep| > 0
    ensures r.Some? ==> OccursAt(s, sep, r.value)
    ensures r.Some? ==> forall j: nat :: j < r.value ==> !OccursAt(s, sep, j)
    ensures r.None? <==> Free(s, sep)
    decreases |s|
  {
    if |s| < |sep| then None
    else if s[..|sep|] == sep then Some(0)
    else
      var rest := Find(s[1..], sep);
      forall j: nat | 0 < j ensures OccursAt(s, sep, j) <==> OccursAt(s[1..], sep, j - 1) {
        if j + |sep| <= |s| {
          ShiftedSlice(s, j, |sep|);
        }
      }
      match rest
      case None => None
      case Some(k) => Some(k + 1)
  }

  lemma ShiftedSlice(s: string, i: nat, n: nat)
    requires 0 < i && i + n <= |s|
    ensures s[1..][i - 1..i - 1 + n] == s[i..i + n]
  {
  }

  /** `sep.join(words)`. */
  function Join(words: seq<string>, sep: string): string {
    if |words| == 0 then ""
    else if |words| == 1 then words[0]
    else words[0] + sep + Join(words[1..], sep)
  }

  /** `s.split(sep)` for a non-empty `sep` (CPython raises ValueError for an
      empty one): cut `s` at every occurrence of `sep`, scanning left to
      right. There is always at least one piece, no piece contains `sep`,
      no occurrence of `sep` starts inside a piece (each cut is the leftmost
      one), and joining the pieces with `sep` gives back `s`. */
  function SplitOn(s: string, sep: string): (r: seq<string>)
    requires |sep| > 0
    ensures |r| >= 1
    ensures forall i :: 0 <= i < |r| ==> Free(r[i], sep)
    ensures forall i :: 0 <= i < |r| - 1 ==> Free(r[i] + sep[..|sep| - 1], sep)
    ensures Join(r, sep) == s
    decreases |s|
  {
    match Find(s, sep)
    case None => [s]
    case Some(k) =>
      var rest := SplitOn(s[k + |sep|..], sep);
      LeftmostCut(s, sep, k);
      assert s == s[..k] + sep + s[k + |sep|..];
      [s[..k]] + rest
  }

  /** When the first occurrence of `sep` in `s` is at `k`, no occurrence
      starts before `k`, not even one overlapping the separator at `k`: the
      cut `s.split(sep)` makes there is the leftmost possible. */
  lemma LeftmostCut(s: string, sep: string, k: nat)
    requires |sep| > 0 && Find(s, sep) == Some(k)
    ensures Free(s[..k], sep)
    ensures Free(s[..k] + sep[..|sep| - 1], sep)
  {
    PrefixFree(s, sep, k);
    PrefixFree(s, sep, k + |sep| - 1);
    ThroughSeparator(s, sep, k);
  }

  /** The text up to a separator, followed by that separator less its last
      character, is a prefix of `s`. */
  lemma ThroughSeparator(s: string, sep: string, k: nat)
    requires |sep| > 0 && OccursAt(s, sep, k)
    ensures s[..k] + sep[..|sep| - 1] == s[..k + |sep| - 1]
  {
    forall i | 0 <= i < k + |sep| - 1
      ensures (s[..k] + sep[..|sep| - 1])[i] == s[i]
    {
      if k <= i {
        assert sep[i - k] == s[k..k + |sep|][i - k];
      }
    }
  }

  /** A prefix of `s` has no occurrence of `sep` that `s` lacks. */
  lemma PrefixFree(s: string, sep: string, m: nat)
    requires m <= |s|
    requires forall j: nat :: j + |sep| <= m ==> !OccursAt(s, sep, j)
    ensures Free(s[..m], sep)
  {
    forall j: nat ensures !OccursAt(s[..m], sep, j) {
      if j + |sep| <= m {
        assert !OccursAt(s, sep, j);
        assert s[..m][j..j + |sep|] == s[j..j + |sep|];
      }
    }
  }


  /** `s.find(c)` on a word free of `c`, followed by `c`, finds that `c`. */
  lemma {:induction false} FindAfterWord(w: string, c: char, t: string)
    requires c !in w
    ensures Find(w + [c] + t, [c]) == Some(|w|)
  {
    var s := w + [c] + t;
    if w == [] {
      assert s[..1] == [c];
    } else {
      assert s[..1] != [c] by { assert s[..1][0] == w[0] != c; }
      assert s[1..] == w[1..] + [c] + t;
      FindAfterWord(w[1..], c, t);
    }
  }

  /** Splitting on a one-character separator undoes joining with it, as long
      as no word contains that character. */
  lemma {:induction false} SplitJoinOneChar(words: seq<string>, c: char)
    requires |words| >= 1
    requires forall i :: 0 <= i < |words| ==> c !in words[i]
    ensures SplitOn(Join(words, [c]), [c]) == words
  {
    var w := words[0];
    if |words| == 1 {
      SplitWithoutSeparator(w, c);
    } else {
      var t := Join(words[1..], [c]);
      assert Join(words, [c]) == w + [c] + t;
      FindAfterWord(w, c, t);
      SplitOnAfterWord(w, c, t);
      SplitJoinOneChar(words[1..], c);
      assert words == [w] + words[1..];
    }
  }

  /** A word without `c` splits on `c` into itself alone. */
  lemma SplitWithoutSeparator(w: string, c: char)
    requires c !in w
    ensures SplitOn(w, [c]) == [w]
  {
    assert Free(w, [c]) by {
      forall j: nat ensures !OccursAt(w, [c], j) {
        if j + 1 <= |w| {
          assert w[j..j + 1] == [w[j]];
        }
      }
    }
  }

  /** One step of `SplitOn`: the word before the first separator, then the
      split of what follows it. */
  lemma SplitOnAfterWord(w: string, c: char, t: string)
    requires Find(w + [c] + t, [c]) == Some(|w|)
    ensures SplitOn(w + [c] + t, [c]) == [w] + SplitOn(t, [c])
  {
    assert (w + [c] + t)[..|w|] == w;
    assert (w + [c] + t)[|w| + 1..] == t;
  }

  // ---------------------------------------------------------------------
  // str.split() with no argument
  // ---------------------------------------------------------------------

  /** Length of the run of non-whitespace characters that starts `s`. */
  function WordLength(s: string): (n: nat)
    ensures n <= |s|
    ensures NoSpace(s[..n])
    ensures n < |s| ==> IsSpace(s[n])
  {
    if s != [] && !IsSpace(s[0]) then 1 + WordLength(s[1..]) else 0
  }

  /** `s.split()`: the maximal runs of non-whitespace characters of `s`, in
      order; every field is non-empty and free of whitespace. */
  function Fields(s: string): (r: seq<string>)
    ensures forall i :: 0 <= i < |r| ==> r[i] != [] && NoSpace(r[i])
    decreases |s|
  {
    if s == [] then []
    else if IsSpace(s[0]) then Fields(s[1..])
    else
      var n := WordLength(s);
      [s[..n]] + Fields(s[n..])
  }

  /** `s` with its whitespace characters removed. */
  function RemoveSpaces(s: string): string {
    if s == [] then []
    else (if IsSpace(s[0]) then [] else [s[0]]) + RemoveSpaces(s[1..])
  }

  function Concat(words: seq<string>): string {
    if words == [] then [] else words[0] + Concat(words[1..])
  }

  lemma {:induction false} RemoveSpacesAppend(a: string, b: string)
    ensures RemoveSpaces(a + b) == RemoveSpaces(a) + RemoveSpaces(b)
  {
    if a != [] {
      assert (a + b)[0] == a[0];
      assert (a + b)[1..] == a[1..] + b;
      RemoveSpacesAppend(a[1..], b);
      var h := if IsSpace(a[0]) then [] else [a[0]];
      assert RemoveSpaces(a + b) == h + RemoveSpaces(a[1..] + b);
      assert RemoveSpaces(a) == h + RemoveSpaces(a[1..]);
    } else {
      assert a + b == b;
    }
  }

  lemma {:induction false} RemoveSpacesOfWord(w: string)
    requires NoSpace(w)
    ensures RemoveSpaces(w) == w
  {
    if w != [] {
      RemoveSpacesOfWord(w[1..]);
    }
  }

  /** The fields of `s` hold exactly the non-whitespace characters of `s`,
      in their original order. */
  lemma {:induction false} FieldsKeepCharacters(s: string)
    ensures Concat(Fields(s)) == RemoveSpaces(s)
    decreases |s|
  {
    if s == [] {
    } else if IsSpace(s[0]) {
      FieldsKeepCharacters(s[1..]);
    } else {
      var n := WordLength(s);
      FieldsKeepCharacters(s[n..]);
      assert s == s[..n] + s[n..];
      RemoveSpacesAppend(s[..n], s[n..]);
      RemoveSpacesOfWord(s[..n]);
    }
  }

  /** `WordLength` of a whitespace-free word followed by whitespace. */
  lemma {:induction false} WordLengthOfWord(w: string, t: string)
    requires NoSpace(w)
    requires t != [] ==> IsSpace(t[0])
    ensures WordLength(w + t) == |w|
  {
    if w != [] {
      assert (w + t)[1..] == w[1..] + t;
      WordLengthOfWord(w[1..], t);
    }
  }

  /** `split()` undoes joining non-empty, whitespace-free words with one
      space. */
  lemma {:induction false} FieldsOfJoin(words: seq<string>)
    requires forall i :: 0 <= i < |words| ==> words[i] != [] && NoSpace(words[i])
    ensures Fields(Join(words, " ")) == words
  {
    if |words| == 1 {
      WordLengthOfWord(words[0], "");
      assert words[0][..|words[0]|] == words[0];
    } else if |words| > 1 {
      var w := words[0];
      var t := Join(words[1..], " ");
      assert Join(words, " ") == w + " " + t;
      FieldsAfterWord(w, t);
      FieldsOfJoin(words[1..]);
      assert words == [w] + words[1..];
    }
  }

  /** A whitespace-free word followed by one space is the first field. */
  lemma FieldsAfterWord(w: string, t: string)
    requires w != [] && NoSpace(w)
    ensures Fields(w + " " + t) == [w] + Fields(t)
  {
    var s := w + " " + t;
    assert s == w + (" " + t);
    WordLengthOfWord(w, " " + t);
    assert s[..|w|] == w;
    assert s[|w|..] == " " + t;
    assert (" " + t)[1..] == t;
  }

  /** `WordLength` sees only the first run: appending to `a` does not move
      its end when the run already stops inside `a` or `b` starts with
      whitespace. */
  lemma {:induction false} WordLengthAppend(a: string, b: string)
    requires WordLength(a) < |a| || b == [] || IsSpace(b[0])
    ensures WordLength(a + b) == WordLength(a)
  {
    if a == [] {
      assert a + b == b;
    } else if !IsSpace(a[0]) {
      assert (a + b)[0] == a[0];
      assert (a + b)[1..] == a[1..] + b;
      WordLengthAppend(a[1..], b);
    }
  }

  /** `split()` cuts at whitespace: when `a` ends or `b` starts with a
      whitespace character, no field spans the boundary, and the fields of
      `a + b` are those of `a` followed by those of `b`. */
  lemma {:induction false} FieldsAtSpace(a: string, b: string)
    requires (a != [] && IsSpace(a[|a| - 1])) || (b != [] && IsSpace(b[0]))
    ensures Fields(a + b) == Fields(a) + Fields(b)
    decreases |a|
  {
    if a == [] {
      assert a + b == b;
    } else if IsSpace(a[0]) {
      if a[1..] != [] {
        assert a[1..][|a[1..]| - 1] == a[|a| - 1];
        FieldsAtSpace(a[1..], b);
      }
      FieldsAfterSpace(a, b);
    } else {
      var n := WordLength(a);
      if n < |a| {
        assert a[n..][|a[n..]| - 1] == a[|a| - 1];
        FieldsAtSpace(a[n..], b);
      } else {
        assert a[..n][n - 1] == a[n - 1];
      }
      FieldsAfterRun(a, b);
    }
  }

  /** The step of `FieldsAtSpace` for a leading whitespace character. */
  lemma FieldsAfterSpace(a: string, b: string)
    requires a != [] && IsSpace(a[0])
    requires a[1..] != [] ==> Fields(a[1..] + b) == Fields(a[1..]) + Fields(b)
    ensures Fields(a + b) == Fields(a) + Fields(b)
  {
    AppendSlices(a, b, 1);
    assert (a + b)[0] == a[0];
    if a[1..] == [] {
      assert a[1..] + b == b;
    }
  }

  /** Cutting `a + b` inside `a`. */
  lemma AppendSlices(a: string, b: string, n: nat)
    requires n <= |a|
    ensures (a + b)[..n] == a[..n] && (a + b)[n..] == a[n..] + b
  {
  }

  /** The step of `FieldsAtSpace` for a leading run that ends inside `a` or
      right before a whitespace character of `b`. */
  lemma FieldsAfterRun(a: string, b: string)
    requires a != [] && !IsSpace(a[0])
    requires WordLength(a) < |a| || (b != [] && IsSpace(b[0]))
    requires WordLength(a) < |a| ==>
               Fields(a[WordLength(a)..] + b) == Fields(a[WordLength(a)..]) + Fields(b)
    ensures Fields(a + b) == Fields(a) + Fields(b)
  {
    var n := WordLength(a);
    var ab := a + b;
    AppendSlices(a, b, n);
    WordLengthAppend(a, b);
    assert ab[0] == a[0];
    FieldsOfRun(ab);
    FieldsOfRun(a);
    var first := a[..n];
    assert Fields(ab) == [first] + Fields(a[n..] + b);
    assert Fields(a) == [first] + Fields(a[n..]);
    if n == |a| {
      assert a[n..] + b == b;
      assert Fields(a[n..]) == [];
    }
    ConsAppend(first, Fields(a[n..]), Fields(b));
  }

  lemma ConsAppend<T>(x: T, p: seq<T>, q: seq<T>)
    ensures [x] + (p + q) == [x] + p + q
  {
  }

  /** One unfolding of `Fields` at a non-whitespace character. */
  lemma FieldsOfRun(x: string)
    requires x != [] && !IsSpace(x[0])
    ensures Fields(x) == [x[..WordLength(x)]] + Fields(x[WordLength(x)..])
  {
  }

  /** A string of whitespace only has no fields. */
  lemma {:induction false} FieldsOfSpaces(s: string)
    requires AllSpace(s)
    ensures Fields(s) == []
  {
    if s != [] {
      FieldsOfSpaces(s[1..]);
    }
  }

  /** A non-empty run of non-whitespace is one field, itself. Together with
      `FieldsAtSpace` and `FieldsOfSpaces` this fixes `split()` on every
      string: the fields are exactly its maximal non-whitespace runs. */
  lemma FieldsOfWord(w: string)
    requires w != [] && NoSpace(w)
    ensures Fields(w) == [w]
  {
    WordLengthOfWord(w, []);
    assert w + [] == w;
    assert w[..|w|] == w;
  }

  // ---------------------------------------------------------------------
  // str.upper()
  // ---------------------------------------------------------------------

  /** Upper-case mapping of one character, ASCII letters only. */
  function ToUpper(c: char): char {
    if 'a' <= c <= 'z' then (c as int - 32) as char else c
  }

  /** `s.upper()`, restricted to the ASCII case mapping: same length, each
      character mapped by `ToUpper`. */
  function Upper(s: string): (r: string)
    ensures |r| == |s|
    ensures forall i :: 0 <= i < |s| ==> r[i] == ToUpper(s[i])
  {
    if s == [] then [] else [ToUpper(s[0])] + Upper(s[1..])
  }

  /** Upper-casing twice is upper-casing once. */
  lemma UpperIdempotent(s: string)
    ensures Upper(Upper(s)) == Upper(s)
  {
    assert forall i :: 0 <= i < |s| ==> ToUpper(ToUpper(s[i])) == ToUpper(s[i]);
  }
}
