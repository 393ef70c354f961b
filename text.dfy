/** Python string primitives the pipeline and the crawler rely on: `str.isspace`,
    `str.split()` without arguments, `sep.join`, the `in` substring test, `str.lower`
    and non-negative slicing. */
module Text {

  /** Python's `str.isspace()`, also what `\s` in a `re` pattern, `str.split()` and
      `str.strip()` treat as whitespace. */
  predicate IsSpace(c: char) {
    || ('\t' <= c <= '\r')
    || ('\U{1C}' <= c <= ' ')
    || c == '\U{85}' || c == '\U{A0}' || c == '\U{1680}'
    || ('\U{2000}' <= c <= '\U{200A}')
    || c == '\U{2028}' || c == '\U{2029}' || c == '\U{202F}' || c == '\U{205F}' || c == '\U{3000}'
  }

  predicate NoSpace(s: string) {
    forall i :: 0 <= i < |s| ==> !IsSpace(s[i])
  }

  /** What `str.split()` can return as one element: a non-empty run without whitespace. */
  predicate IsToken(t: string) {
    t != [] && NoSpace(t)
  }

  /** Length of the leading run of non-whitespace characters of `s`. */
  function TokenEnd(s: string): (n: nat)
    ensures n <= |s|
    ensures forall i :: 0 <= i < n ==> !IsSpace(s[i])
    ensures n < |s| ==> IsSpace(s[n])
  {
    if s == [] || IsSpace(s[0]) then 0 else 1 + TokenEnd(s[1..])
  }

  /** Python's `s.split()`: the maximal whitespace-free runs of `s`, in order. */
  function Split(s: string): seq<string>
    decreases |s|
  {
    if s == [] then []
    else if IsSpace(s[0]) then Split(s[1..])
    else
      var n := TokenEnd(s);
      [s[..n]] + Split(s[n..])
  }

  /** Python's `sep.join(parts)`. */
  function Join(sep: string, parts: seq<string>): string {
    if parts == [] then []
    else if |parts| == 1 then parts[0]
    else parts[0] + sep + Join(sep, parts[1..])
  }

  /** Python's `p in s` on two strings. */
  predicate IsSubstring(p: string, s: string)
    decreases |s|
  {
    p <= s || (s != [] && IsSubstring(p, s[1..]))
  }

  /** `str.lower()` on one character, for the ASCII letters (see README, "Left out"). */
  function LowerChar(c: char): char {
    if 'A' <= c <= 'Z' then (c as int + 32) as char else c
  }

  function Lower(s: string): (r: string)
    ensures |r| == |s|
    ensures forall i :: 0 <= i < |s| ==> r[i] == LowerChar(s[i])
  {
    seq(|s|, i requires 0 <= i < |s| => LowerChar(s[i]))
  }

  /** Python's `s.replace(c, "")` for a one-character `c`. */
  function Delete(s: string, c: char): (r: string)
    ensures forall i :: 0 <= i < |r| ==> r[i] != c
    ensures forall i :: 0 <= i < |r| ==> r[i] in s
  {
    if s == [] then []
    else if s[0] == c then Delete(s[1..], c)
    else [s[0]] + Delete(s[1..], c)
  }

  /** Python's `s.replace(c, d)` for one-character `c` and `d`. */
  function Replace(s: string, c: char, d: char): (r: string)
    ensures |r| == |s|
    ensures forall i :: 0 <= i < |s| ==> r[i] == if s[i] == c then d else s[i]
  {
    seq(|s|, i requires 0 <= i < |s| => if s[i] == c then d else s[i])
  }

  /** `a` is `b` with some elements left out, the rest kept in order. */
  predicate IsSubsequence<T(==)>(a: seq<T>, b: seq<T>) {
    if a == [] then true
    else if b == [] then false
    else if a[0] == b[0] then IsSubsequence(a[1..], b[1..])
    else IsSubsequence(a, b[1..])
  }

  /** No element occurs twice. */
  predicate Distinct<T(==)>(s: seq<T>) {
    forall i, j :: 0 <= i < j < |s| ==> s[i] != s[j]
  }

  /** A subsequence of `b` is one of `[x] + b`. */
  lemma {:induction false} SubsequenceCons<T>(a: seq<T>, b: seq<T>, x: T)
    requires IsSubsequence(a, b)
    ensures IsSubsequence(a, [x] + b)
    decreases |a| + |b|
  {
    assert ([x] + b)[1..] == b;
    if a != [] && a[0] == x {
      if a[0] == b[0] {
        SubsequenceCons(a[1..], b[1..], b[0]);
        assert [b[0]] + b[1..] == b;
      } else {
        SubsequenceCons(a, b[1..], x);
        assert ([x] + b[1..])[1..] == b[1..];
        SubsequenceCons(a[1..], b[1..], b[0]);
        assert [b[0]] + b[1..] == b;
      }
    }
  }

  /** Python's `s[:n]`. */
  function Take<T>(s: seq<T>, n: nat): (r: seq<T>)
    ensures |r| == if n <= |s| then n else |s|
    ensures r <= s
  {
    if n <= |s| then s[..n] else s
  }

  /** Python's `s[n:]`. */
  function Drop<T>(s: seq<T>, n: nat): (r: seq<T>)
    ensures |r| == if n <= |s| then |s| - n else 0
    ensures forall i :: 0 <= i < |r| ==> r[i] == s[n + i]
  {
    if n <= |s| then s[n..] else []
  }

  lemma {:induction false} TokenEndOfToken(t: string, u: string)
    requires NoSpace(t)
    requires u == [] || IsSpace(u[0])
    ensures TokenEnd(t + u) == |t|
    decreases |t|
  {
    if t == [] {
      assert t + u == u;
    } else {
      assert (t + u)[1..] == t[1..] + u;
      TokenEndOfToken(t[1..], u);
    }
  }

  /** Every element `str.split()` returns is a non-empty run without whitespace. */
  lemma {:induction false} SplitTokens(s: string)
    ensures forall t :: t in Split(s) ==> IsToken(t)
    ensures forall t, i :: t in Split(s) && 0 <= i < |t| ==> t[i] in s
    decreases |s|
  {
    if s == [] {
    } else if IsSpace(s[0]) {
      SplitTokens(s[1..]);
    } else {
      var n := TokenEnd(s);
      SplitTokens(s[n..]);
    }
  }

  /** Joining adds no character besides those of the parts and the separator. */
  lemma {:induction false} JoinChars(sep: string, parts: seq<string>, c: char)
    requires c in Join(sep, parts)
    ensures c in sep || exists t :: t in parts && c in t
  {
    if |parts| > 1 {
      var rest := Join(sep, parts[1..]);
      assert Join(sep, parts) == parts[0] + sep + rest;
      assert parts[0] in parts;
      if c !in parts[0] && c !in sep {
        JoinChars(sep, parts[1..], c);
        var t :| t in parts[1..] && c in t;
        assert t in parts;
      }
    } else if |parts| == 1 {
      assert parts[0] in parts;
    }
  }

  /** Deleting a character that does not occur changes nothing. */
  lemma {:induction false} DeleteAbsent(s: string, c: char)
    requires c !in s
    ensures Delete(s, c) == s
  {
    if s != [] {
      assert c !in s[1..];
      DeleteAbsent(s[1..], c);
      assert s == [s[0]] + s[1..];
    }
  }

  /** A token followed by whitespace or by nothing is the first word of the split. */
  lemma SplitTokenThen(t: string, u: string)
    requires IsToken(t)
    requires u == [] || IsSpace(u[0])
    ensures Split(t + u) == [t] + Split(u)
  {
    TokenEndOfToken(t, u);
    assert (t + u)[0] == t[0];
    assert (t + u)[..|t|] == t && (t + u)[|t|..] == u;
  }

  /** A text made only of whitespace splits into no words. */
  lemma {:induction false} SplitOfBlank(w: string)
    requires forall i :: 0 <= i < |w| ==> IsSpace(w[i])
    ensures Split(w) == []
    decreases |w|
  {
    if w != [] {
      assert IsSpace(w[0]);
      SplitOfBlank(w[1..]);
    }
  }

  /** Trailing whitespace adds no word. */
  lemma {:induction false} SplitBlankTail(r: string, w: string)
    requires forall i :: 0 <= i < |w| ==> IsSpace(w[i])
    ensures Split(r + w) == Split(r)
    decreases |r|
  {
    if r == [] {
      assert r + w == w;
      SplitOfBlank(w);
    } else if IsSpace(r[0]) {
      assert (r + w)[0] == r[0] && (r + w)[1..] == r[1..] + w;
      SplitBlankTail(r[1..], w);
    } else {
      var n := TokenEnd(r);
      var t := r[..n];
      assert r == t + r[n..];
      assert r + w == t + (r[n..] + w);
      assert IsToken(t);
      assert n < |r| ==> (r[n..] + w)[0] == r[n];
      SplitTokenThen(t, r[n..] + w);
      SplitBlankTail(r[n..], w);
    }
  }

  /** Splitting undoes joining with one space, for parts that `str.split()` could return. */
  lemma {:induction false} SplitJoin(ts: seq<string>)
    requires forall t :: t in ts ==> IsToken(t)
    ensures Split(Join(" ", ts)) == ts
  {
    if ts == [] {
    } else if |ts| == 1 {
      var t := ts[0];
      assert t in ts;
      TokenEndOfToken(t, []);
      assert t + [] == t;
      assert t[..|t|] == t && t[|t|..] == [];
    } else {
      var t := ts[0];
      var rest := Join(" ", ts[1..]);
      var s := t + " " + rest;
      assert t in ts;
      assert s == t + (" " + rest);
      TokenEndOfToken(t, " " + rest);
      assert s[..|t|] == t;
      assert s[|t|..] == " " + rest;
      assert (" " + rest)[1..] == rest;
      SplitJoin(ts[1..]);
      assert Split(" " + rest) == Split(rest);
      assert ts == [t] + ts[1..];
    }
  }
}
