/**
 * Association lists with Python `dict` semantics: a key keeps the position of
 * its first insertion and the value of its last assignment.
 */
module Dicts {
  import opened Wrappers

  /** The keys of an association list, in order. */
  function Keys<V>(d: seq<(string, V)>): seq<string>
  {
    seq(|d|, i requires 0 <= i < |d| => d[i].0)
  }

  /** No name occurs twice. */
  predicate Distinct(s: seq<string>)
  {
    forall i, j :: 0 <= i < j < |s| ==> s[i] != s[j]
  }

  /** The position of the first occurrence of `k` in `s`. */
  function IndexOf(s: seq<string>, k: string): (r: Option<nat>)
    ensures r.None? <==> k !in s
    ensures r.Some? ==> r.value < |s| && s[r.value] == k
    ensures r.Some? ==> forall i :: 0 <= i < r.value ==> s[i] != k
  {
    if |s| == 0 then None
    else if s[0] == k then Some(0)
    else match IndexOf(s[1..], k)
      case None => None
      case Some(j) => Some(j + 1)
  }

  /**
   * `d[k] = v`: overwrite in place when `k` is present, append otherwise.  An
   * existing key keeps its position and a new one goes last; every other
   * entry stays where it was.
   */
  function Put<V>(d: seq<(string, V)>, k: string, v: V): (r: seq<(string, V)>)
    ensures Keys(r) == if k in Keys(d) then Keys(d) else Keys(d) + [k]
    ensures Distinct(Keys(d)) ==> Distinct(Keys(r))
    ensures forall c :: c in Keys(r) <==> c in Keys(d) || c == k
    ensures (k, v) in r
    ensures forall x :: x in r ==> x in d || x == (k, v)
    ensures forall i :: 0 <= i < |d| && d[i].0 != k ==> r[i] == d[i]
  {
    match IndexOf(Keys(d), k)
    case Some(i) =>
      var r := d[i := (k, v)];
      assert Keys(r) == Keys(d);
      r
    case None =>
      var r := d + [(k, v)];
      assert Keys(r) == Keys(d) + [k];
      r
  }

  /**
   * The keys `ks` appear in the order in which they first occur in `src`,
   * and all of them occur there.
   */
  predicate FirstInsertionOrder(ks: seq<string>, src: seq<string>)
  {
    && (forall c :: c in ks ==> c in src)
    && forall i, j :: 0 <= i < j < |ks| ==> IndexOf(src, ks[i]).value < IndexOf(src, ks[j]).value
  }

  /** Every pair that no later pair overrides is an entry of `d`. */
  ghost predicate LastAssignmentsKept<V>(d: seq<(string, V)>, pairs: seq<(string, V)>)
  {
    forall q :: 0 <= q < |pairs| && pairs[q].0 !in Keys(pairs[q + 1..]) ==> pairs[q] in d
  }

  /** The first occurrence of a name within a prefix is its first occurrence in any extension. */
  lemma IndexOfPrefix(s: seq<string>, t: seq<string>, c: string)
    requires c in s
    ensures IndexOf(s + t, c) == IndexOf(s, c)
  {
    var x := IndexOf(s + t, c).value;
    var y := IndexOf(s, c).value;
    assert (s + t)[y] == c;
  }

  /** One more assignment keeps the dict's keys in first-insertion order and its last values. */
  lemma PutKeeps<V>(d: seq<(string, V)>, init: seq<(string, V)>, k: string, v: V)
    requires forall c :: c in Keys(d) <==> c in Keys(init)
    requires FirstInsertionOrder(Keys(d), Keys(init))
    requires LastAssignmentsKept(d, init)
    ensures FirstInsertionOrder(Keys(Put(d, k, v)), Keys(init + [(k, v)]))
    ensures LastAssignmentsKept(Put(d, k, v), init + [(k, v)])
  {
    PutKeepsOrder(d, init, k, v);
    PutKeepsLast(d, init, k, v);
  }

  /** Assigning a key keeps the first-insertion order of the keys. */
  lemma PutKeepsOrder<V>(d: seq<(string, V)>, init: seq<(string, V)>, k: string, v: V)
    requires forall c :: c in Keys(d) <==> c in Keys(init)
    requires FirstInsertionOrder(Keys(d), Keys(init))
    ensures FirstInsertionOrder(Keys(Put(d, k, v)), Keys(init + [(k, v)]))
  {
    var pairs := init + [(k, v)];
    assert Keys(pairs) == Keys(init) + [k];
    forall c | c in Keys(init)
      ensures IndexOf(Keys(pairs), c) == IndexOf(Keys(init), c)
    {
      IndexOfPrefix(Keys(init), [k], c);
    }
    if k !in Keys(init) {
      assert IndexOf(Keys(pairs), k).value == |init| by {
        assert Keys(pairs)[|init|] == k;
      }
    }
  }

  /** Assigning a key keeps the entries that no later assignment overrides. */
  lemma PutKeepsLast<V>(d: seq<(string, V)>, init: seq<(string, V)>, k: string, v: V)
    requires LastAssignmentsKept(d, init)
    ensures LastAssignmentsKept(Put(d, k, v), init + [(k, v)])
  {
    var r := Put(d, k, v);
    var pairs := init + [(k, v)];
    forall q | 0 <= q < |pairs| && pairs[q].0 !in Keys(pairs[q + 1..])
      ensures pairs[q] in r
    {
      if q < |init| {
        assert pairs[q + 1..] == init[q + 1..] + [(k, v)];
        assert Keys(pairs[q + 1..]) == Keys(init[q + 1..]) + [k];
        assert pairs[q] == init[q];
        var i :| 0 <= i < |d| && d[i] == init[q];
        assert r[i] == d[i];
      }
    }
  }

  /**
   * The dict obtained by assigning `pairs` one after the other to an empty
   * dict: its keys are those of the pairs, once each.
   */
  function Build<V>(pairs: seq<(string, V)>): (d: seq<(string, V)>)
    ensures Distinct(Keys(d))
    ensures forall c :: c in Keys(d) <==> c in Keys(pairs)
    ensures forall x :: x in d ==> x in pairs
  {
    if |pairs| == 0 then []
    else
      var init := pairs[..|pairs| - 1];
      var last := pairs[|pairs| - 1];
      assert Keys(pairs) == Keys(init) + [last.0];
      Put(Build(init), last.0, last.1)
  }

  /**
   * The built dict holds its keys in the order of their first assignment,
   * and each key the value of its last assignment.
   */
  lemma {:induction false} BuildOrder<V>(pairs: seq<(string, V)>)
    ensures FirstInsertionOrder(Keys(Build(pairs)), Keys(pairs))
    ensures LastAssignmentsKept(Build(pairs), pairs)
  {
    if |pairs| > 0 {
      var init := pairs[..|pairs| - 1];
      var last := pairs[|pairs| - 1];
      BuildOrder(init);
      assert pairs == init + [last];
      PutKeeps(Build(init), init, last.0, last.1);
    }
  }

  /** Assigning pairs whose keys are already distinct yields exactly those pairs. */
  lemma {:induction false} BuildOfDistinct<V>(pairs: seq<(string, V)>)
    requires Distinct(Keys(pairs))
    ensures Build(pairs) == pairs
  {
    if |pairs| > 0 {
      var init := pairs[..|pairs| - 1];
      var last := pairs[|pairs| - 1];
      assert Distinct(Keys(init)) && last.0 !in Keys(init) by {
        assert Keys(pairs) == Keys(init) + [last.0];
        assert Keys(init) == Keys(pairs)[..|init|];
        forall i | 0 <= i < |init|
          ensures Keys(init)[i] != last.0
        {
          assert Keys(pairs)[i] != Keys(pairs)[|pairs| - 1];
        }
      }
      BuildOfDistinct(init);
      PutNew(init, last.0, last.1);
      assert pairs == init + [last];
    }
  }

  /** Assigning a key the dict lacks appends it. */
  lemma PutNew<V>(d: seq<(string, V)>, k: string, v: V)
    requires k !in Keys(d)
    ensures Put(d, k, v) == d + [(k, v)]
  {
    assert IndexOf(Keys(d), k) == None;
  }
}
