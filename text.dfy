/** The JavaScript string operations the support portal relies on, restricted to what the
    code needs: ASCII lower-casing, the `\w` and `\s` character classes of its regular
    expressions, `includes`, `split`, `join` and `trim`. */
module Text {

  // ---------------------------------------------------------------- characters

  predicate IsUpper(c: char) { 'A' <= c <= 'Z' }

  predicate IsDigit(c: char) { '0' <= c <= '9' }

  /** `[A-Za-z0-9]`: the class `[A-Z0-9]` under the regular expression's `i` flag. */
  predicate IsAlnum(c: char) { 'a' <= c <= 'z' || IsUpper(c) || IsDigit(c) }

  /** `\w`: `[A-Za-z0-9_]`. */
  predicate IsWordChar(c: char) { IsAlnum(c) || c == '_' }

  /** `\s`, and the characters `String.prototype.trim` removes: ECMAScript WhiteSpace
      (tab, vertical tab, form feed, space, no-break space, byte order mark and the
      Unicode space separators) and LineTerminator (LF, CR, LS, PS). */
  predicate IsSpace(c: char) {
    var n := c as int;
    n == 0x09 || n == 0x0A || n == 0x0B || n == 0x0C || n == 0x0D || n == 0x20
    || n == 0xA0 || n == 0x1680 || (0x2000 <= n <= 0x200A) || n == 0x2028 || n == 0x2029
    || n == 0x202F || n == 0x205F || n == 0x3000 || n == 0xFEFF
  }

  function LowerChar(c: char): char {
    if IsUpper(c) then (c as int + 32) as char else c
  }

  // ---------------------------------------------------------------- lower-casing

  /** `toLowerCase`, on the ASCII letters. */
  function Lower(s: string): (r: string)
    ensures |r| == |s|
    ensures forall c :: c in r ==> !IsUpper(c)
  {
    if s == [] then [] else [LowerChar(s[0])] + Lower(s[1..])
  }

  lemma {:induction false} LowerAt(s: string, i: nat)
    requires i < |s|
    ensures Lower(s)[i] == LowerChar(s[i])
  {
    if i > 0 {
      LowerAt(s[1..], i - 1);
    }
  }

  /** A string without upper-case letters is its own lower-case form. */
  lemma {:induction false} LowerOfLower(s: string)
    requires forall i :: 0 <= i < |s| ==> !IsUpper(s[i])
    ensures Lower(s) == s
  {
    if s != [] {
      LowerOfLower(s[1..]);
    }
  }

  /** Lower-casing twice is lower-casing once. */
  lemma {:induction false} LowerIdempotent(s: string)
    ensures Lower(Lower(s)) == Lower(s)
  {
    var l := Lower(s);
    forall i | 0 <= i < |l| ensures !IsUpper(l[i]) {
      assert l[i] in l;
    }
    LowerOfLower(l);
  }

  // ---------------------------------------------------------------- punctuation

  /** `replace(/[^\w\s]/g, '')`: keeps the word characters and the white space. */
  function StripPunct(s: string): (r: string)
    ensures |r| <= |s|
    ensures forall c :: c in r ==> c in s && (IsWordChar(c) || IsSpace(c))
    ensures forall c :: c in s && (IsWordChar(c) || IsSpace(c)) ==> c in r
  {
    if s == [] then []
    else
      assert s == [s[0]] + s[1..];
      (if IsWordChar(s[0]) || IsSpace(s[0]) then [s[0]] else []) + StripPunct(s[1..])
  }

  /** Every word character and white-space character is kept as often as it occurs. */
  lemma {:induction false} StripPunctCounts(s: string, c: char)
    requires IsWordChar(c) || IsSpace(c)
    ensures multiset(StripPunct(s))[c] == multiset(s)[c]
  {
    if s != [] {
      StripPunctCounts(s[1..], c);
      assert s == [s[0]] + s[1..];
    }
  }

  /** Characters are kept or dropped one by one, so the kept ones stay in their order. */
  lemma {:induction false} StripPunctAppend(a: string, b: string)
    ensures StripPunct(a + b) == StripPunct(a) + StripPunct(b)
  {
    if a != [] {
      assert (a + b)[1..] == a[1..] + b;
      StripPunctAppend(a[1..], b);
    } else {
      assert a + b == b;
    }
  }

  lemma {:induction false} StripPunctClean(s: string)
    requires forall i :: 0 <= i < |s| ==> IsWordChar(s[i]) || IsSpace(s[i])
    ensures StripPunct(s) == s
  {
    if s != [] {
      StripPunctClean(s[1..]);
    }
  }

  /** The text the FAQ scorer works on: lower-cased, punctuation removed. */
  function Normalize(s: string): string {
    StripPunct(Lower(s))
  }

  // ---------------------------------------------------------------- substrings

  predicate StartsWith(s: string, p: string) {
    |p| <= |s| && s[..|p|] == p
  }

  /** `s.includes(p)`. */
  predicate Contains(s: string, p: string) {
    StartsWith(s, p) || (s != [] && Contains(s[1..], p))
  }

  lemma {:induction false} ContainsAt(s: string, p: string, k: nat)
    requires k + |p| <= |s| && s[k..k + |p|] == p
    ensures Contains(s, p)
  {
    if k > 0 {
      assert s[1..][k - 1..k - 1 + |p|] == s[k..k + |p|];
      ContainsAt(s[1..], p, k - 1);
    } else {
      assert s[..|p|] == s[0..|p|];
    }
  }

  /** `p` occurs in `s` starting at position `k`. */
  predicate OccursAt(s: string, p: string, k: nat) {
    k + |p| <= |s| && s[k..k + |p|] == p
  }

  /** `includes` holds exactly when `p` occurs at some position of `s`. */
  lemma {:induction false} ContainsIff(s: string, p: string)
    ensures Contains(s, p) <==> exists k: nat :: OccursAt(s, p, k)
  {
    if Contains(s, p) {
      var k := ContainsWitness(s, p);
      assert OccursAt(s, p, k);
    } else {
      forall k: nat | OccursAt(s, p, k)
        ensures false
      {
        ContainsAt(s, p, k);
      }
    }
  }

  /** A lower-cased string contains `p` when the characters at `k` lower-case to `p`. */
  lemma ContainsLowered(s: string, p: string, k: nat)
    requires k + |p| <= |s|
    requires forall i :: 0 <= i < |p| ==> LowerChar(s[k + i]) == p[i]
    ensures Contains(Lower(s), p)
  {
    var l := Lower(s);
    forall i | 0 <= i < |p|
      ensures l[k..k + |p|][i] == p[i]
    {
      LowerAt(s, k + i);
    }
    assert l[k..k + |p|] == p;
    ContainsAt(l, p, k);
  }

  lemma {:induction false} ContainsWitness(s: string, p: string) returns (k: nat)
    requires Contains(s, p)
    ensures k + |p| <= |s| && s[k..k + |p|] == p
  {
    if StartsWith(s, p) {
      k := 0;
    } else {
      var j := ContainsWitness(s[1..], p);
      k := j + 1;
      assert s[k..k + |p|] == s[1..][j..j + |p|];
    }
  }

  /** A string contains whatever is embedded in it. */
  lemma ContainsIn(a: string, p: string, b: string)
    ensures Contains(a + p + b, p)
  {
    assert (a + p + b)[|a|..|a| + |p|] == p;
    ContainsAt(a + p + b, p, |a|);
  }

  /** Text around a string does not hide what it contains. */
  lemma ContainsExtend(a: string, s: string, b: string, p: string)
    requires Contains(s, p)
    ensures Contains(a + s + b, p)
  {
    var k := ContainsWitness(s, p);
    assert (a + s + b)[|a| + k..|a| + k + |p|] == s[k..k + |p|];
    ContainsAt(a + s + b, p, |a| + k);
  }

  /** Concatenation regroups freely; stated once so that proofs about filters over long
      sequences need not rediscover it. */
  lemma ConcatAssoc<T>(x: seq<T>, y: seq<T>, z: seq<T>)
    ensures x + (y + z) == (x + y) + z
  {
  }

  // ---------------------------------------------------------------- split and join

  /** `s.split(sep)` for a one-character separator: every occurrence of `sep` cuts, so
      neighbouring separators give empty pieces, and the empty string gives `[""]`. */
  function Split(s: string, sep: char): (r: seq<string>)
    ensures |r| >= 1
    ensures forall piece :: piece in r ==> sep !in piece
  {
    if s == [] then [""]
    else
      var rest := Split(s[1..], sep);
      if s[0] == sep then [""] + rest
      else [[s[0]] + rest[0]] + rest[1..]
  }

  /** `xs.join(sep)`. */
  function Join(xs: seq<string>, sep: char): (r: string)
    ensures |r| == (if xs == [] then 0 else |xs| - 1) + SumLengths(xs)
  {
    if |xs| == 0 then ""
    else if |xs| == 1 then xs[0]
    else xs[0] + [sep] + Join(xs[1..], sep)
  }

  /** The total length of the pieces. */
  function SumLengths(xs: seq<string>): nat {
    if xs == [] then 0 else |xs[0]| + SumLengths(xs[1..])
  }

  lemma JoinCons(x: string, xs: seq<string>, sep: char)
    requires |xs| >= 1
    ensures Join([x] + xs, sep) == x + [sep] + Join(xs, sep)
  {
    assert ([x] + xs)[1..] == xs;
  }

  /** Joining the pieces of a split gives the string back. */
  lemma {:induction false} JoinSplit(s: string, sep: char)
    ensures Join(Split(s, sep), sep) == s
  {
    if s != [] {
      JoinSplit(s[1..], sep);
      if s[0] == sep {
        JoinSplitAtSep(s, sep);
      } else {
        JoinSplitAtChar(s, sep);
      }
    }
  }

  lemma JoinSplitAtSep(s: string, sep: char)
    requires s != [] && s[0] == sep
    requires Join(Split(s[1..], sep), sep) == s[1..]
    ensures Join(Split(s, sep), sep) == s
  {
    var rest := Split(s[1..], sep);
    assert Split(s, sep) == [""] + rest;
    JoinCons("", rest, sep);
    assert [sep] + s[1..] == s;
  }

  lemma JoinSplitAtChar(s: string, sep: char)
    requires s != [] && s[0] != sep
    requires Join(Split(s[1..], sep), sep) == s[1..]
    ensures Join(Split(s, sep), sep) == s
  {
    var rest := Split(s[1..], sep);
    var head := [s[0]] + rest[0];
    assert Split(s, sep) == [head] + rest[1..];
    if |rest| == 1 {
      assert [head] + rest[1..] == [head];
    } else {
      JoinCons(head, rest[1..], sep);
      assert rest == [rest[0]] + rest[1..];
      JoinCons(rest[0], rest[1..], sep);
      assert head + [sep] + Join(rest[1..], sep) == [s[0]] + (rest[0] + [sep] + Join(rest[1..], sep));
    }
    assert [s[0]] + s[1..] == s;
  }

  /** Every piece of a join occurs in the joined string. */
  lemma {:induction false} JoinContains(xs: seq<string>, sep: char, i: nat)
    requires i < |xs|
    ensures Contains(Join(xs, sep), xs[i])
  {
    if |xs| == 1 {
      ContainsIn([], xs[0], []);
      assert [] + xs[0] + [] == Join(xs, sep);
    } else if i == 0 {
      ContainsIn([], xs[0], [sep] + Join(xs[1..], sep));
      assert [] + xs[0] + ([sep] + Join(xs[1..], sep)) == Join(xs, sep);
    } else {
      JoinContains(xs[1..], sep, i - 1);
      ContainsExtend(xs[0] + [sep], Join(xs[1..], sep), [], xs[i]);
      assert xs[0] + [sep] + Join(xs[1..], sep) + [] == Join(xs, sep);
    }
  }

  lemma {:induction false} SplitNoSep(a: string, sep: char)
    requires sep !in a
    ensures Split(a, sep) == [a]
  {
    if a != [] {
      SplitNoSep(a[1..], sep);
      assert a == [a[0]] + a[1..];
    }
  }

  lemma {:induction false} SplitCons(a: string, b: string, sep: char)
    requires sep !in a
    ensures Split(a + [sep] + b, sep) == [a] + Split(b, sep)
  {
    var s := a + [sep] + b;
    if a == [] {
      assert s[1..] == b;
    } else {
      assert s[1..] == a[1..] + [sep] + b;
      SplitCons(a[1..], b, sep);
      var rest := Split(s[1..], sep);
      assert rest == [a[1..]] + Split(b, sep);
      assert s[0] == a[0] && a[0] != sep;
      assert Split(s, sep) == [[a[0]] + rest[0]] + rest[1..];
      assert a == [a[0]] + a[1..];
    }
  }

  /** Splitting a join gives the pieces back when no piece holds the separator. */
  lemma {:induction false} SplitJoin(xs: seq<string>, sep: char)
    requires |xs| >= 1
    requires forall i :: 0 <= i < |xs| ==> sep !in xs[i]
    ensures Split(Join(xs, sep), sep) == xs
  {
    if |xs| == 1 {
      SplitNoSep(xs[0], sep);
    } else {
      assert forall i :: 0 <= i < |xs[1..]| ==> xs[1..][i] == xs[i + 1];
      SplitJoin(xs[1..], sep);
      SplitCons(xs[0], Join(xs[1..], sep), sep);
    }
  }

  lemma {:induction false} SplitHeadIsPrefix(s: string, sep: char)
    ensures StartsWith(s, Split(s, sep)[0])
  {
    if s != [] && s[0] != sep {
      SplitHeadIsPrefix(s[1..], sep);
    }
  }

  /** Every piece of a split occurs in the split string: an exact token is also a substring. */
  lemma {:induction false} TokenContained(s: string, sep: char, t: string)
    requires t in Split(s, sep)
    ensures Contains(s, t)
  {
    if s == [] {
      assert t == "";
      assert StartsWith(s, t);
    } else {
      var rest := Split(s[1..], sep);
      if s[0] == sep {
        if t == "" {
          assert StartsWith(s, t);
        } else {
          TokenContained(s[1..], sep, t);
        }
      } else if t == Split(s, sep)[0] {
        SplitHeadIsPrefix(s, sep);
      } else {
        assert t in rest[1..];
        TokenContained(s[1..], sep, t);
      }
    }
  }

  // ---------------------------------------------------------------- trim

  predicate IsBlank(s: string) {
    forall i :: 0 <= i < |s| ==> IsSpace(s[i])
  }

  /** The index of the first character at or after `k` that is not white space. */
  function SkipSpaces(s: string, k: nat): (i: nat)
    requires k <= |s|
    ensures k <= i <= |s|
    ensures forall m :: k <= m < i ==> IsSpace(s[m])
    ensures i < |s| ==> !IsSpace(s[i])
    decreases |s| - k
  {
    if k < |s| && IsSpace(s[k]) then SkipSpaces(s, k + 1) else k
  }

  /** The end of `s[..k]` once its trailing white space is dropped. */
  function SkipSpacesBack(s: string, k: nat): (j: nat)
    requires k <= |s|
    ensures j <= k
    ensures forall m :: j <= m < k ==> IsSpace(s[m])
    ensures j > 0 ==> !IsSpace(s[j - 1])
  {
    if k > 0 && IsSpace(s[k - 1]) then SkipSpacesBack(s, k - 1) else k
  }

  /** `s.trim()`: a slice of the string with only white space cut away at both ends; it
      is empty exactly when the string is blank, and a non-empty result neither starts
      nor ends with white space. */
  function Trim(s: string): (r: string)
    ensures r == [] <==> IsBlank(s)
    ensures r != [] ==> !IsSpace(r[0]) && !IsSpace(r[|r| - 1])
    ensures exists i :: 0 <= i <= |s| - |r| && r == s[i..i + |r|] && IsBlank(s[..i]) && IsBlank(s[i + |r|..])
  {
    var i := SkipSpaces(s, 0);
    if i == |s| then
      assert s[..0] == [] && s[0..] == s;
      []
    else
      var j := SkipSpacesBack(s, |s|);
      assert i < j;
      assert IsBlank(s[..i]) && IsBlank(s[j..]);
      s[i..j]
  }
}
