/**
 * The Python built-ins the codec relies on, written out with their exact semantics:
 * floor division and modulo, slicing and negative indexing, max(), and the
 * insertion-ordered dict.
 */
module PythonOps {
  import opened Wrappers

  /** Python's `a // b`: rounds toward negative infinity. */
  function FloorDiv(a: int, b: int): (q: int)
    requires b != 0
    ensures b > 0 ==> b * q <= a < b * q + b
    ensures b < 0 ==> b * q + b < a <= b * q
  {
    if b > 0 then a / b else (-a) / (-b)
  }

  /** Python's `a % b`: the remainder takes the sign of the divisor. */
  function FloorMod(a: int, b: int): (r: int)
    requires b != 0
    ensures a == b * FloorDiv(a, b) + r
    ensures b > 0 ==> 0 <= r < b
    ensures b < 0 ==> b < r <= 0
  {
    a - b * FloorDiv(a, b)
  }

  /** How Python normalises a slice bound or a search start against a length `n`. */
  function Norm(i: int, n: nat): (r: nat)
    ensures r <= n
    ensures 0 <= i <= n ==> r == i
  {
    if i < 0 then (if i + n < 0 then 0 else i + n) else if i > n then n else i
  }

  /** Python's `s[lo:hi]`: bounds are normalised and an empty slice is never an error. */
  function Slice<T>(s: seq<T>, lo: int, hi: int): (r: seq<T>)
    ensures Norm(lo, |s|) < Norm(hi, |s|) ==> r == s[Norm(lo, |s|)..Norm(hi, |s|)]
    ensures Norm(hi, |s|) <= Norm(lo, |s|) ==> r == []
    ensures 0 <= lo <= hi <= |s| ==> r == s[lo..hi]
  {
    var l, h := Norm(lo, |s|), Norm(hi, |s|);
    if l < h then s[l..h] else []
  }

  /** The position Python's `s[i]` reads in a sequence of length n, for -n <= i < n. */
  function Position(i: int, n: nat): (p: nat)
    requires 0 <= i + n && i < n
    ensures p < n && (p == i || p == i + n)
  {
    if i < 0 then i + n else i
  }

  /** Python's `s[i]`: a negative index counts from the end; out of range is an IndexError. */
  function Index<T>(s: seq<T>, i: int): (r: Result<T>)
    ensures r.Ok? <==> -|s| <= i < |s|
    ensures 0 <= i < |s| ==> r == Ok(s[i])
    ensures -|s| <= i < 0 ==> r == Ok(s[i + |s|])
    ensures r.Err? ==> r.error == IndexOutOfRange
  {
    if 0 <= i < |s| then Ok(s[i])
    else if -|s| <= i < 0 then Ok(s[i + |s|])
    else Err(IndexOutOfRange)
  }

  /** Python's `list.index(e)`: the first position of e, or a ValueError. */
  function IndexOf<T(==)>(s: seq<T>, e: T): (r: Result<nat>)
    ensures r.Ok? <==> e in s
    ensures r.Ok? ==> r.value < |s| && s[r.value] == e
    ensures r.Err? ==> r.error == NotInList
  {
    if |s| == 0 then Err(NotInList)
    else if s[0] == e then Ok(0)
    else match IndexOf(s[1..], e)
      case Err(x) => Err(x)
      case Ok(i) => Ok(i + 1)
  }

  /** The members of a non-empty sequence are those of its prefix and its last element. */
  lemma InitMembers<T>(s: seq<T>, init: seq<T>)
    requires |s| > 0 && init == s[..|s| - 1]
    ensures forall x {:trigger x in init} :: x in init ==> x in s
    ensures forall x {:trigger x in s} :: x in s ==> x in init || x == s[|s| - 1]
    ensures s[|s| - 1] in s
  {
  }

  /** `list.index` finds the first occurrence. */
  lemma {:induction false} IndexOfFirst<T>(s: seq<T>, e: T)
    requires e in s
    ensures forall j :: 0 <= j < IndexOf(s, e).value ==> s[j] != e
  {
    if s[0] != e {
      IndexOfFirst(s[1..], e);
    }
  }

  /** Python's `max()` of a non-empty sequence (the empty case raises; callers model it). */
  function Max(s: seq<int>): (m: int)
    requires |s| > 0
    ensures m in s
    ensures forall x :: x in s ==> x <= m
  {
    if |s| == 1 then s[0]
    else
      var rest := Max(s[1..]);
      assert forall x :: x in s ==> x == s[0] || x in s[1..];
      if s[0] >= rest then s[0] else rest
  }

  /**
   * A Python dict: a map together with the order in which its keys were first inserted.
   * Assigning to a key that is present replaces its value and keeps its position.
   */
  datatype Dict<K(==,!new), V> = Dict(keys: seq<K>, values: map<K, V>) {

    ghost predicate Valid() {
      && (forall i, j :: 0 <= i < j < |keys| ==> keys[i] != keys[j])
      && (forall k :: k in values <==> k in keys)
    }

    /** The keys of the map are the keys in the order list. */
    lemma KeySet()
      requires Valid()
      ensures values.Keys == set k | k in keys
    {
    }

    /** `d[k] = v` */
    function Set(k: K, v: V): (d: Dict<K, V>)
      requires Valid()
      ensures d.Valid()
      ensures d.values == values[k := v]
      ensures k in values ==> d.keys == keys
      ensures k !in values ==> d.keys == keys + [k]
    {
      if k in values then Dict(keys, values[k := v]) else Dict(keys + [k], values[k := v])
    }
  }

  function EmptyDict<K(==,!new), V>(): (d: Dict<K, V>)
    ensures d.Valid() && d.keys == [] && d.values == map[]
  {
    Dict([], map[])
  }

  /** `d.get(k, 0)` on a map to integers. */
  function GetOrZero<K(==)>(m: map<K, int>, k: K): (r: int)
    ensures k in m ==> r == m[k]
    ensures k !in m ==> r == 0
  {
    if k in m then m[k] else 0
  }
}
