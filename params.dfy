/**
 * The request's `params` hash: route captures, query string and form fields,
 * in insertion order, each key at most once; a value may be nil (a key that
 * is present but has no value), which is not the same as an absent key.
 */
module RequestParams {
  import opened Wrappers

  datatype Param = Param(key: string, value: Option<string>)

  predicate DistinctKeys(ps: seq<Param>) {
    forall i, j :: 0 <= i < j < |ps| ==> ps[i].key != ps[j].key
  }

  type Params = ps: seq<Param> | DistinctKeys(ps)

  /** The entry for key `k`: absent (None), present with nil, or present with a value. */
  function Lookup(ps: seq<Param>, k: string): Option<Option<string>> {
    if ps == [] then None
    else if ps[0].key == k then Some(ps[0].value)
    else Lookup(ps[1..], k)
  }

  /** The entry found is one stored under `k`, and there is one exactly when `k` is a key. */
  lemma {:induction false} LookupSound(ps: seq<Param>, k: string)
    ensures Lookup(ps, k).Some? <==> exists i :: 0 <= i < |ps| && ps[i].key == k
    ensures Lookup(ps, k).Some? ==> exists i :: 0 <= i < |ps| && ps[i] == Param(k, Lookup(ps, k).value)
  {
    if ps != [] && ps[0].key != k {
      LookupSound(ps[1..], k);
      assert forall i :: 1 <= i < |ps| ==> ps[1..][i - 1] == ps[i];
      if Lookup(ps, k).Some? {
        var i :| 0 <= i < |ps[1..]| && ps[1..][i] == Param(k, Lookup(ps, k).value);
        assert ps[i + 1] == Param(k, Lookup(ps, k).value);
      }
    }
  }

  /** With distinct keys the entry of key `k` is the one stored under `k`. */
  lemma LookupAt(ps: Params, i: nat)
    requires i < |ps|
    ensures Lookup(ps, ps[i].key) == Some(ps[i].value)
  {
    LookupSound(ps, ps[i].key);
    var r := Lookup(ps, ps[i].key);
    var j :| 0 <= j < |ps| && ps[j] == Param(ps[i].key, r.value);
    assert j == i;
  }

  /** `params.has_key?(k)`. */
  predicate HasKey(ps: seq<Param>, k: string) {
    Lookup(ps, k).Some?
  }

  /** `params[k]`: nil when the key is absent or its value is nil. */
  function ParamValue(ps: seq<Param>, k: string): Option<string> {
    match Lookup(ps, k)
    case Some(Some(v)) => Some(v)
    case _ => None
  }

  /** Some entry of `r` has key `n`. */
  predicate HasEntry(r: seq<(string, string)>, n: string) {
    exists i :: 0 <= i < |r| && r[i].0 == n
  }

  lemma PrependKeepsEntries(x: (string, string), r: seq<(string, string)>)
    ensures forall n :: HasEntry(r, n) ==> HasEntry([x] + r, n)
    ensures HasEntry([x] + r, x.0)
  {
    forall n | HasEntry(r, n) ensures HasEntry([x] + r, n) {
      var i :| 0 <= i < |r| && r[i].0 == n;
      assert ([x] + r)[i + 1] == r[i];
    }
    assert ([x] + r)[0] == x;
  }

  /**
   * `params.slice(*names).compact`: the keys of `names` that have a non-nil
   * value, in the order of `names`, with their values.
   */
  function SliceCompact(ps: seq<Param>, names: seq<string>): (r: seq<(string, string)>)
    ensures |r| <= |names|
    ensures forall i :: 0 <= i < |r| ==> r[i].0 in names && ParamValue(ps, r[i].0) == Some(r[i].1)
    ensures forall n :: n in names && ParamValue(ps, n).Some? ==> HasEntry(r, n)
    ensures (forall i, j :: 0 <= i < j < |names| ==> names[i] != names[j]) ==>
      forall i, j :: 0 <= i < j < |r| ==> r[i].0 != r[j].0
  {
    if names == [] then []
    else
      var rest := SliceCompact(ps, names[1..]);
      match ParamValue(ps, names[0])
      case Some(v) =>
        var r := [(names[0], v)] + rest;
        assert forall i :: 1 <= i < |r| ==> r[i] == rest[i - 1];
        assert forall n :: n in names ==> n == names[0] || n in names[1..];
        assert r[0].0 == names[0];
        PrependKeepsEntries((names[0], v), rest);
        r
      case None =>
        assert forall n :: n in names ==> n == names[0] || n in names[1..];
        rest
  }
}
