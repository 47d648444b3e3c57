/** Small shared vocabulary: an optional value, substring search on strings
    (the semantics of Rust's `str::contains`) and flattening of nested sequences. */
module Common {

  /** Rust's `Option`. */
  datatype Option<T> = None | Some(value: T)

  /** `p` occurs in `s` starting at offset `k`. */
  ghost predicate OccursAt(s: string, p: string, k: int)
  {
    0 <= k && k + |p| <= |s| && s[k..k + |p|] == p
  }

  /** `p` is a (contiguous) substring of `s`. */
  ghost predicate IsSubstring(p: string, s: string)
  {
    exists k :: OccursAt(s, p, k)
  }

  predicate StartsWith(s: string, prefix: string)
  {
    |prefix| <= |s| && s[..|prefix|] == prefix
  }

  predicate EndsWith(s: string, suffix: string)
  {
    |suffix| <= |s| && s[|s| - |suffix|..] == suffix
  }

  /** Occurrences in `s[1..]` are exactly the occurrences in `s` past offset 0. */
  lemma OccursShift(s: string, p: string)
    requires |s| > 0
    ensures forall k :: OccursAt(s[1..], p, k) <==> k >= 0 && OccursAt(s, p, k + 1)
  {
    forall k
      ensures OccursAt(s[1..], p, k) <==> k >= 0 && OccursAt(s, p, k + 1)
    {
      if 0 <= k && k + |p| <= |s| - 1 {
        assert s[1..][k..k + |p|] == s[k + 1..k + 1 + |p|];
      }
    }
  }

  /** Rust's `str::contains`, computed by a left-to-right scan; it agrees
      with the substring relation (an empty pattern is always contained). */
  function Contains(s: string, p: string): (r: bool)
    ensures r <==> IsSubstring(p, s)
    decreases |s|
  {
    if |p| > |s| then
      assert forall k :: !OccursAt(s, p, k);
      false
    else if StartsWith(s, p) then
      assert OccursAt(s, p, 0);
      true
    else
      OccursShift(s, p);
      assert forall k :: OccursAt(s, p, k) ==> k >= 1 && OccursAt(s[1..], p, k - 1);
      Contains(s[1..], p)
  }

  /** A pattern found in the tail `b` is found in `a + b`. */
  lemma ContainsInSuffix(a: string, b: string, p: string)
    requires IsSubstring(p, b)
    ensures IsSubstring(p, a + b)
  {
    var k :| OccursAt(b, p, k);
    assert (a + b)[|a| + k..|a| + k + |p|] == b[k..k + |p|];
    assert OccursAt(a + b, p, |a| + k);
  }

  /** A pattern found in the head `a` is found in `a + b`. */
  lemma ContainsInPrefix(a: string, b: string, p: string)
    requires IsSubstring(p, a)
    ensures IsSubstring(p, a + b)
  {
    var k :| OccursAt(a, p, k);
    assert (a + b)[k..k + |p|] == a[k..k + |p|];
    assert OccursAt(a + b, p, k);
  }

  /** Concatenation of a sequence of sequences, in order. */
  function Flatten<T>(ss: seq<seq<T>>): seq<T>
  {
    if |ss| == 0 then [] else ss[0] + Flatten(ss[1..])
  }

  lemma FlattenSingle<T>(s: seq<T>)
    ensures Flatten([s]) == s
  {
    assert [s][1..] == [];
  }

  lemma {:induction false} FlattenAppend<T>(a: seq<seq<T>>, b: seq<seq<T>>)
    ensures Flatten(a + b) == Flatten(a) + Flatten(b)
    decreases |a|
  {
    if |a| == 0 {
      assert a + b == b;
    } else {
      assert (a + b)[1..] == a[1..] + b;
      FlattenAppend(a[1..], b);
    }
  }
}
