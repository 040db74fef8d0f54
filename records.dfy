/**
 * The `config.json` record the entry scripts write: a JSON object, kept as
 * its key and value pairs in the order the dict literal lists them.
 */
module Records {
  import opened Wrappers

  datatype Json = JStr(s: string) | JInt(i: int) | JBool(b: bool) | JNum(r: real)

  type Record = seq<(string, Json)>

  /** The keys in order. */
  function Keys(rec: Record): (ks: seq<string>)
    ensures |ks| == |rec|
    ensures forall i :: 0 <= i < |rec| ==> ks[i] == rec[i].0
  {
    if rec == [] then [] else [rec[0].0] + Keys(rec[1..])
  }

  /** The value under `key`: the first pair carrying it. */
  function Get(rec: Record, key: string): (r: Option<Json>)
    ensures r.Some? <==> key in Keys(rec)
    ensures r.Some? ==> (key, r.value) in rec
  {
    if rec == [] then None
    else if rec[0].0 == key then Some(rec[0].1)
    else Get(rec[1..], key)
  }

  /** No key occurs twice, so the record is a JSON object without shadowed entries. */
  predicate DistinctKeys(rec: Record) {
    forall i, j :: 0 <= i < j < |rec| ==> rec[i].0 != rec[j].0
  }

  /** With distinct keys, each key reads back its own value. */
  lemma {:induction false} GetOfDistinct(rec: Record, i: nat)
    requires DistinctKeys(rec) && i < |rec|
    ensures Get(rec, rec[i].0) == Some(rec[i].1)
  {
    if i > 0 {
      assert rec[1..][i - 1] == rec[i];
      assert DistinctKeys(rec[1..]) by {
        forall a, b | 0 <= a < b < |rec| - 1
          ensures rec[1..][a].0 != rec[1..][b].0
        {
          assert rec[1..][a] == rec[a + 1] && rec[1..][b] == rec[b + 1];
        }
      }
      GetOfDistinct(rec[1..], i - 1);
      assert rec[0].0 != rec[i].0;
    }
  }
}
