/**
 * The two list operations that both the server and the client apply to an
 * ordered list of records: `list.filter((a) => a.id !== id)` and
 * `list.find((a) => a.id === id)`, and the filter-then-push replacement
 * built from the first.
 */
module RecordList {
  import opened Json

  /** Some record of `s` has the id `id`. */
  predicate Contains(s: seq<Record>, id: int)
  {
    exists i :: 0 <= i < |s| && HasId(s[i], id)
  }

  /** The records of `s` whose id is not `id`, in their original order. */
  function Without(s: seq<Record>, id: int): (r: seq<Record>)
    ensures |r| <= |s|
    ensures forall x :: x in r <==> x in s && !HasId(x, id)
    decreases |s|
  {
    if s == [] then []
    else (if HasId(s[0], id) then [] else [s[0]]) + Without(s[1..], id)
  }

  /** Filtering distributes over concatenation: the survivors of `a` come
      before the survivors of `b`, so the relative order of the kept records
      is the order they had in the input. */
  lemma {:induction false} WithoutAppend(a: seq<Record>, b: seq<Record>, id: int)
    ensures Without(a + b, id) == Without(a, id) + Without(b, id)
  {
    if a == [] {
      assert a + b == b;
    } else {
      assert (a + b)[1..] == a[1..] + b;
      WithoutAppend(a[1..], b, id);
    }
  }

  /** Filtering changes the list exactly when the id is present, and then it
      removes at least one record. */
  lemma {:induction false} WithoutEffect(s: seq<Record>, id: int)
    ensures !Contains(s, id) ==> Without(s, id) == s
    ensures Contains(s, id) ==> |Without(s, id)| < |s|
  {
    if s != [] {
      WithoutEffect(s[1..], id);
      if HasId(s[0], id) {
      } else {
        assert Contains(s[1..], id) <==> Contains(s, id) by {
          if Contains(s, id) {
            var i :| 0 <= i < |s| && HasId(s[i], id);
            assert s[1..][i - 1] == s[i];
          }
          if Contains(s[1..], id) {
            var i :| 0 <= i < |s[1..]| && HasId(s[1..][i], id);
            assert s[i + 1] == s[1..][i];
          }
        }
      }
    }
  }

  /** Position of the first record of `s` with the id `id`, or |s| if none. */
  function FirstIndex(s: seq<Record>, id: int): (k: nat)
    ensures k <= |s|
    ensures forall j :: 0 <= j < k ==> !HasId(s[j], id)
    ensures k < |s| ==> HasId(s[k], id)
    decreases |s|
  {
    if s == [] then 0
    else if HasId(s[0], id) then 0
    else 1 + FirstIndex(s[1..], id)
  }

  /** `s.find((a) => a.id === id)`: the first record with that id, if any. */
  function FindById(s: seq<Record>, id: int): (r: Option<Record>)
    ensures r.None? <==> !Contains(s, id)
    ensures r.Some? ==> exists k :: 0 <= k < |s| && s[k] == r.value && HasId(s[k], id)
                                      && forall j :: 0 <= j < k ==> !HasId(s[j], id)
  {
    var k := FirstIndex(s, id);
    if k < |s| then Some(s[k]) else None
  }

  /** `s.filter((a) => a.id !== id)` followed by `push(rec)`: every record
      with the id `id` is dropped and `rec` goes last. */
  function ReplaceById(s: seq<Record>, id: int, rec: Record): (r: seq<Record>)
    ensures |r| >= 1 && r[|r| - 1] == rec
    ensures r[..|r| - 1] == Without(s, id)
    ensures forall x :: x in r[..|r| - 1] <==> x in s && !HasId(x, id)
    ensures HasId(rec, id) ==> forall i :: 0 <= i < |r| ==> (HasId(r[i], id) <==> i == |r| - 1)
  {
    var kept := Without(s, id);
    assert (kept + [rec])[..|kept|] == kept;
    kept + [rec]
  }
}
