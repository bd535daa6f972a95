/** Two helpers of bucky/util/util.py: `remove_chars`, which keeps only the
    digits of a string and passes every other value through, and
    `map_np_array`, which builds an array by looking every element of a key
    array up in a dictionary. */
module Util {

  // -------------------------------------------------------------- remove_chars

  /** A dynamically typed argument: a value whose type is exactly `str`, or any
      other value (a number, an array, an instance of a subclass of `str`). */
  datatype Value<T> = Str(s: string) | Other(v: T)

  /** A decimal digit character. */
  predicate IsDigit(c: char)
  {
    '0' <= c <= '9'
  }

  /** `r` is `s` with some characters deleted, the rest kept in order: either
      `r` is empty, or it matches `s` from its first character on, or it is a
      subsequence of the tail of `s`. */
  predicate Subsequence(r: string, s: string)
    decreases |s|
  {
    |r| == 0 ||
    (|s| > 0 && ((r[0] == s[0] && Subsequence(r[1..], s[1..])) || Subsequence(r, s[1..])))
  }

  /** `"".join(filter(str.isdigit, s))`: the digits of `s`, in order. */
  function Digits(s: string): (r: string)
    ensures |r| <= |s|
    ensures forall i :: 0 <= i < |r| ==> IsDigit(r[i])
  {
    if |s| == 0 then ""
    else (if IsDigit(s[0]) then [s[0]] else "") + Digits(s[1..])
  }

  /** `remove_chars(seq)`: a `str` keeps only its digits; anything else is
      returned untouched. */
  function RemoveChars<T>(x: Value<T>): (r: Value<T>)
    ensures x.Other? ==> r == x
    ensures x.Str? ==> r.Str? && |r.s| <= |x.s| && forall i :: 0 <= i < |r.s| ==> IsDigit(r.s[i])
  {
    match x
    case Str(s) => Str(Digits(s))
    case Other(_) => x
  }

  /** The digits of a string are exactly its digit characters, in their order:
      a subsequence of it that holds every digit as often as the string does and
      no other character. */
  lemma {:induction false} DigitsExactly(s: string)
    ensures Subsequence(Digits(s), s)
    ensures forall c :: multiset(Digits(s))[c] == if IsDigit(c) then multiset(s)[c] else 0
  {
    if |s| > 0 {
      DigitsExactly(s[1..]);
      assert s == [s[0]] + s[1..];
      var rest := Digits(s[1..]);
      if IsDigit(s[0]) {
        assert Digits(s) == [s[0]] + rest;
        assert Digits(s)[1..] == rest;
      } else {
        assert Digits(s) == rest;
      }
    }
  }

  /** A string is left unchanged exactly when it is made of digits only. */
  lemma {:induction false} DigitsUnchanged(s: string)
    ensures Digits(s) == s <==> forall i :: 0 <= i < |s| ==> IsDigit(s[i])
  {
    if |s| > 0 {
      DigitsUnchanged(s[1..]);
      if !IsDigit(s[0]) {
        assert |Digits(s)| <= |s[1..]| < |s|;
      } else {
        assert Digits(s) == [s[0]] + Digits(s[1..]);
        assert forall i :: 1 <= i < |s| ==> s[i] == s[1..][i - 1];
      }
    }
  }

  /** Removing the non-digits twice is removing them once. */
  lemma RemoveCharsIdempotent<T>(x: Value<T>)
    ensures RemoveChars(RemoveChars(x)) == RemoveChars(x)
  {
    if x.Str? {
      DigitsUnchanged(Digits(x.s));
    }
  }

  /** A string of digits passes through unchanged. */
  lemma RemoveCharsOfDigitString<T>(s: string)
    requires forall i :: 0 <= i < |s| ==> IsDigit(s[i])
    ensures RemoveChars<T>(Str(s)) == Str(s)
  {
    DigitsUnchanged(s);
  }

  /** A formatted code loses its separators: "12-345" becomes "12345". */
  lemma RemoveCharsExample<T>()
    ensures RemoveChars<T>(Str("12-345")) == Str("12345")
  {
    var s := "12-345";
    assert s[1..][1..][1..] == "345";
    DigitsUnchanged("345");
  }

  // -------------------------------------------------------------- map_np_array

  /** The result of assigning `d[k]` to every position whose key is `k`, for
      each `k` of `keys`, starting from `base`. */
  function Remapped<K>(a: seq<K>, d: map<K, real>, keys: set<K>, base: seq<real>): (r: seq<real>)
    requires |base| == |a| && keys <= d.Keys
    ensures |r| == |a|
    ensures forall i :: 0 <= i < |a| && a[i] in keys ==> r[i] == d[a[i]]
    ensures forall i :: 0 <= i < |a| && a[i] !in keys ==> r[i] == base[i]
  {
    seq(|a|, (i: int) requires 0 <= i < |a| => if a[i] in keys then d[a[i]] else base[i])
  }

  /** `n[a == k] = v`: sets every position whose key is `k`. */
  function Masked<K(==)>(a: seq<K>, k: K, v: real, n: seq<real>): (r: seq<real>)
    requires |n| == |a|
    ensures |r| == |a|
    ensures forall i :: 0 <= i < |a| && a[i] == k ==> r[i] == v
    ensures forall i :: 0 <= i < |a| && a[i] != k ==> r[i] == n[i]
  {
    seq(|a|, (i: int) requires 0 <= i < |a| => if a[i] == k then v else n[i])
  }

  /** Masked writes for two different keys touch disjoint positions, so the
      order in which the dictionary's keys are visited does not matter. */
  lemma MaskedCommute<K>(a: seq<K>, k1: K, v1: real, k2: K, v2: real, n: seq<real>)
    requires |n| == |a| && k1 != k2
    ensures Masked(a, k1, v1, Masked(a, k2, v2, n)) == Masked(a, k2, v2, Masked(a, k1, v1, n))
  {
  }

  /** Visiting one more key extends the remapping by that key's masked write. */
  lemma RemappedStep<K>(a: seq<K>, d: map<K, real>, keys: set<K>, k: K, base: seq<real>)
    requires |base| == |a| && keys <= d.Keys && k in d && k !in keys
    ensures Masked(a, k, d[k], Remapped(a, d, keys, base)) == Remapped(a, d, keys + {k}, base)
  {
  }

  /** The loop of `map_np_array`: for every key `k` of `d`, in any order, every
      position of `n` whose key is `k` is set to `d[k]`; positions whose key is
      not in `d` keep what they held. */
  method MapInto<K(==)>(a: seq<K>, d: map<K, real>, n: array<real>)
    requires n.Length == |a|
    modifies n
    ensures n[..] == Remapped(a, d, d.Keys, old(n[..]))
  {
    ghost var base := n[..];
    var todo := d.Keys;
    ghost var done: set<K> := {};
    while todo != {}
      invariant todo + done == d.Keys && todo !! done
      invariant n[..] == Remapped(a, d, done, base)
      decreases |todo|
    {
      var k :| k in todo;
      ghost var before := n[..];
      forall i | 0 <= i < n.Length && a[i] == k {
        n[i] := d[k];
      }
      assert n[..] == Masked(a, k, d[k], before);
      RemappedStep(a, d, done, k, base);
      todo := todo - {k};
      done := done + {k};
    }
  }

  /** `map_np_array(a, d)`: a fresh array of the shape of `a` whose positions
      with a key in `d` hold that key's value. The other positions are never
      written: the fresh buffer is uninitialised, so nothing is known of them. */
  method MapNpArray<K(==)>(a: seq<K>, d: map<K, real>) returns (n: array<real>)
    ensures fresh(n) && n.Length == |a|
    ensures forall i :: 0 <= i < |a| && a[i] in d ==> n[i] == d[a[i]]
  {
    n := new real[|a|];
    MapInto(a, d, n);
  }

  /** When every key is in the dictionary, the result is the look-up of every
      key, whatever the buffer held before. */
  lemma RemappedTotal<K>(a: seq<K>, d: map<K, real>, base: seq<real>)
    requires |base| == |a| && forall i :: 0 <= i < |a| ==> a[i] in d
    ensures Remapped(a, d, d.Keys, base) == seq(|a|, (i: int) requires 0 <= i < |a| => d[a[i]])
  {
  }
}
