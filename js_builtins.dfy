/** The JavaScript built-ins the ticket core relies on, with their ECMAScript
    semantics written out: `String.prototype.trim`, the UTF-16 `length` of a
    string, `Array.prototype.join`, `filter` and `slice`, and `Math.ceil` of a
    quotient. */
module JsBuiltins {
  import opened Wrappers

  /** JavaScript truthiness of an optional string: present and non-empty. */
  predicate Truthy(s: Option<string>) {
    s.Some? && s.value != ""
  }

  /** WhiteSpace and LineTerminator code points, the set `trim` removes. */
  predicate IsWhitespace(c: char) {
    || c == '\t' || c == '\n' || c == '\U{000B}' || c == '\U{000C}' || c == '\r'
    || c == ' ' || c == '\U{00A0}' || c == '\U{1680}'
    || ('\U{2000}' <= c <= '\U{200A}')
    || c == '\U{2028}' || c == '\U{2029}' || c == '\U{202F}' || c == '\U{205F}'
    || c == '\U{3000}' || c == '\U{FEFF}'
  }

  predicate AllWhitespace(s: string) {
    forall i :: 0 <= i < |s| ==> IsWhitespace(s[i])
  }

  /** Drops leading whitespace: the result is the suffix of `s` that starts at
      its first non-whitespace character. */
  function TrimStart(s: string): (r: string)
    ensures |r| <= |s| && r == s[|s| - |r|..]
    ensures AllWhitespace(s[..|s| - |r|])
    ensures r == [] || !IsWhitespace(r[0])
  {
    if s != [] && IsWhitespace(s[0]) then TrimStart(s[1..]) else s
  }

  /** Drops trailing whitespace: the result is the prefix of `s` that ends at
      its last non-whitespace character. */
  function TrimEnd(s: string): (r: string)
    ensures |r| <= |s| && r == s[..|r|]
    ensures AllWhitespace(s[|r|..])
    ensures r == [] || !IsWhitespace(r[|r| - 1])
  {
    if s != [] && IsWhitespace(s[|s| - 1]) then TrimEnd(s[..|s| - 1]) else s
  }

  /** `s.trim()`: the part of `s` left after removing the whitespace at both
      ends, which neither starts nor ends with whitespace. */
  function Trim(s: string): (r: string)
    ensures |r| <= |s|
    ensures exists i, j :: 0 <= i <= j <= |s| && r == s[i..j] && AllWhitespace(s[..i]) && AllWhitespace(s[j..])
    ensures r == [] || (!IsWhitespace(r[0]) && !IsWhitespace(r[|r| - 1]))
  {
    var t := TrimStart(s);
    var r := TrimEnd(t);
    var i := |s| - |t|;
    assert r == s[i..i + |r|];
    assert s[i + |r|..] == t[|r|..];
    r
  }

  /** `s.trim().length === 0` holds exactly for the strings made of whitespace
      only (the empty string included). */
  lemma TrimEmptyIffAllWhitespace(s: string)
    ensures Trim(s) == [] <==> AllWhitespace(s)
  {
    var t := TrimStart(s);
    assert t != [] ==> t[0] == s[|s| - |t|];
    assert t[0..] == t;
    assert s == s[..|s| - |t|] + t;
  }

  /** Trimming twice is trimming once. */
  lemma TrimIdempotent(s: string)
    ensures Trim(Trim(s)) == Trim(s)
  {
    var r := Trim(s);
    if r != [] {
      assert TrimStart(r) == r;
      assert TrimEnd(r) == r;
    }
  }

  /** The number of UTF-16 code units of `s`, which is what `s.length` counts:
      a code point above U+FFFF takes a surrogate pair. */
  function Utf16Length(s: string): (n: nat)
    ensures |s| <= n <= 2 * |s|
  {
    if s == [] then 0
    else (if s[0] as int > 0xFFFF then 2 else 1) + Utf16Length(s[1..])
  }

  /** A string of Basic Multilingual Plane characters has one code unit per
      character. */
  lemma {:induction false} Utf16LengthOfBmp(s: string)
    requires forall i :: 0 <= i < |s| ==> s[i] as int <= 0xFFFF
    ensures Utf16Length(s) == |s|
  {
    if s != [] {
      Utf16LengthOfBmp(s[1..]);
    }
  }

  /** `parts.join(sep)` */
  function Join(parts: seq<string>, sep: string): (r: string)
    ensures parts == [] ==> r == []
    ensures |parts| == 1 ==> r == parts[0]
    ensures |parts| > 0 ==> |parts[0]| <= |r| && r[..|parts[0]|] == parts[0]
  {
    if |parts| == 0 then []
    else if |parts| == 1 then parts[0]
    else parts[0] + sep + Join(parts[1..], sep)
  }

  /** `key` strictly increases along `s`. */
  predicate IncreasingBy<T>(s: seq<T>, key: T -> int) {
    forall i, j :: 0 <= i < j < |s| ==> key(s[i]) < key(s[j])
  }

  /** `s.filter(p)`: the elements of `s` satisfying `p`, in their order. */
  function Filter<T>(s: seq<T>, p: T -> bool): (r: seq<T>)
    ensures |r| <= |s|
    ensures forall i :: 0 <= i < |r| ==> r[i] in s && p(r[i])
    ensures forall i :: 0 <= i < |s| && p(s[i]) ==> s[i] in r
  {
    if s == [] then []
    else (if p(s[0]) then [s[0]] else []) + Filter(s[1..], p)
  }

  /** Filtering by `p` and then by `q` is filtering once by any `r` that
      holds exactly when both do. */
  lemma {:induction false} FilterThenFilter<T>(s: seq<T>, p: T -> bool, q: T -> bool, r: T -> bool)
    requires forall x :: r(x) == (p(x) && q(x))
    ensures Filter(Filter(s, p), q) == Filter(s, r)
  {
    if s != [] {
      FilterThenFilter(s[1..], p, q, r);
      var head := if p(s[0]) then [s[0]] else [];
      assert Filter(s, p) == head + Filter(s[1..], p);
      FilterAppend(head, Filter(s[1..], p), q);
    }
  }

  lemma {:induction false} FilterAppend<T>(a: seq<T>, b: seq<T>, p: T -> bool)
    ensures Filter(a + b, p) == Filter(a, p) + Filter(b, p)
  {
    if a != [] {
      assert (a + b)[0] == a[0] && (a + b)[1..] == a[1..] + b;
      FilterAppend(a[1..], b, p);
      var head := if p(a[0]) then [a[0]] else [];
      calc {
        Filter(a + b, p);
        head + Filter(a[1..] + b, p);
        head + (Filter(a[1..], p) + Filter(b, p));
        (head + Filter(a[1..], p)) + Filter(b, p);
      }
    } else {
      assert a + b == b;
    }
  }

  /** Filtering keeps the relative order of what it keeps. */
  lemma {:induction false} FilterIncreasingBy<T>(s: seq<T>, p: T -> bool, key: T -> int)
    requires IncreasingBy(s, key)
    ensures IncreasingBy(Filter(s, p), key)
  {
    if s != [] {
      var tail := s[1..];
      TailIncreasingBy(s, key);
      FilterIncreasingBy(tail, p, key);
      var rest := Filter(tail, p);
      if p(s[0]) {
        forall e | e in rest
          ensures key(s[0]) < key(e)
        {
          var m :| 0 <= m < |tail| && tail[m] == e;
        }
        PrependIncreasingBy(s[0], rest, key);
      }
    }
  }

  lemma TailIncreasingBy<T>(s: seq<T>, key: T -> int)
    requires s != [] && IncreasingBy(s, key)
    ensures IncreasingBy(s[1..], key)
    ensures forall e :: e in s[1..] ==> key(s[0]) < key(e)
  {
  }

  lemma PrependIncreasingBy<T>(h: T, l: seq<T>, key: T -> int)
    requires IncreasingBy(l, key)
    requires forall e :: e in l ==> key(h) < key(e)
    ensures IncreasingBy([h] + l, key)
  {
    var r := [h] + l;
    forall i, j | 0 <= i < j < |r|
      ensures key(r[i]) < key(r[j])
    {
      assert r[j] == l[j - 1] && r[j] in l;
      if i > 0 {
        assert r[i] == l[i - 1];
      }
    }
  }

  /** Filtering by a predicate that every element meets changes nothing. */
  lemma {:induction false} FilterAll<T>(s: seq<T>, p: T -> bool)
    requires forall i :: 0 <= i < |s| ==> p(s[i])
    ensures Filter(s, p) == s
  {
    if s != [] {
      FilterAll(s[1..], p);
    }
  }

  /** How `slice` reads an index: negative counts from the end, and the
      result is clamped to `[0, len]`. */
  function SliceIndex(i: int, len: nat): (k: nat)
    ensures k <= len
    ensures 0 <= i <= len ==> k == i
    ensures i > len ==> k == len
  {
    if i < 0 then (if len + i < 0 then 0 else len + i)
    else if i > len then len
    else i
  }

  /** `s.slice(start, end)` */
  function Slice<T>(s: seq<T>, start: int, end: int): (r: seq<T>)
    ensures |r| <= |s|
    ensures 0 <= start <= end ==> |r| <= end - start
  {
    var a := SliceIndex(start, |s|);
    var b := SliceIndex(end, |s|);
    if a < b then s[a..b] else []
  }

  /** `Math.ceil(a / b)` for a whole `a` and a non-zero whole `b`. */
  function CeilDiv(a: nat, b: int): (r: int)
    requires b != 0
    ensures b > 0 ==> (r - 1) * b < a <= r * b
    ensures b < 0 ==> r * b <= a < (r - 1) * b
  {
    if b > 0 then (a + b - 1) / b else -(a / -b)
  }

  /* A JavaScript `Map` keyed by strings is a dictionary together with the
     order in which its keys were first inserted; `values()` lists the values
     in that order. */

  /** `order` lists every key of `m` exactly once. */
  ghost predicate IsKeyOrder<V>(m: map<string, V>, order: seq<string>) {
    && (forall k :: k in m <==> k in order)
    && (forall i, j :: 0 <= i < j < |order| ==> order[i] != order[j])
  }

  /** The position of `k` in `order`, its first if it occurs twice, or -1
      when it does not occur. */
  function IndexOf(order: seq<string>, k: string): (i: int)
    ensures -1 <= i < |order|
    ensures i == -1 <==> k !in order
    ensures 0 <= i ==> order[i] == k && k !in order[..i]
  {
    if order == [] then -1
    else if order[0] == k then 0
    else
      var j := IndexOf(order[1..], k);
      if j < 0 then -1
      else
        assert order[..j + 1] == [order[0]] + order[1..][..j];
        j + 1
  }

  /** In a key order every key sits at its own position. */
  lemma IndexOfKey<V>(m: map<string, V>, order: seq<string>, i: int)
    requires IsKeyOrder(m, order) && 0 <= i < |order|
    ensures IndexOf(order, order[i]) == i
  {
  }

  /** `Array.from(m.values())` */
  function MapValues<V>(m: map<string, V>, order: seq<string>): (r: seq<V>)
    requires forall i :: 0 <= i < |order| ==> order[i] in m
    ensures |r| == |order|
    ensures forall i :: 0 <= i < |order| ==> r[i] == m[order[i]]
  {
    seq(|order|, i requires 0 <= i < |order| => m[order[i]])
  }

  /** The key order after `m.set(k, v)`: a new key goes last, an existing key
      keeps its place. */
  function OrderAfterSet<V>(m: map<string, V>, order: seq<string>, k: string): seq<string> {
    if k in m then order else order + [k]
  }

  lemma SetKeepsKeyOrder<V>(m: map<string, V>, order: seq<string>, k: string, v: V)
    requires IsKeyOrder(m, order)
    ensures IsKeyOrder(m[k := v], OrderAfterSet(m, order, k))
  {
  }
}
