/** The list-valued indices `KB.__init__` builds by walking every id of the table and
    every position of its attribute or relation list, appending the position under a key.
    The nested dictionaries of the source (`index[key][id]`) are kept flat here, keyed by
    the pair, so one builder serves the attribute, relation and forward-relation indices. */
module Indices {
  import opened Results
  import opened Seqs

  /** key -> positions; a missing key reads as the empty list, as a `defaultdict(list)` does. */
  type FlatIndex<K> = map<K, seq<nat>>

  function Get<K>(ix: FlatIndex<K>, k: K): seq<nat> {
    if k in ix then ix[k] else []
  }

  ghost predicate StrictlyAscending(s: seq<nat>) {
    forall i, j :: 0 <= i < j < |s| ==> s[i] < s[j]
  }

  /** The positions `i` whose key is `Some(k)`, in ascending order. */
  function PositionsOf<K(==,!new)>(keys: seq<Option<K>>, k: K): (r: seq<nat>)
    ensures forall i: nat :: i in r <==> i < |keys| && keys[i] == Some(k)
    ensures (forall i :: 0 <= i < |keys| ==> keys[i] != Some(k)) ==> r == []
    ensures StrictlyAscending(r)
    ensures forall j :: 0 <= j < |r| ==> r[j] < |keys|
  {
    if |keys| == 0 then []
    else
      var prefix := PositionsOf(keys[..|keys| - 1], k);
      assert forall i :: 0 <= i < |keys| - 1 ==> keys[..|keys| - 1][i] == keys[i];
      if keys[|keys| - 1] == Some(k) then prefix + [|keys| - 1] else prefix
  }

  /** `index[key].append(i)`. */
  function Put<K(==,!new)>(ix: FlatIndex<K>, key: K, i: nat): (r: FlatIndex<K>)
    ensures forall k :: Get(r, k) == Get(ix, k) + (if k == key then [i] else [])
    ensures forall k :: k in r <==> k in ix || k == key
  {
    ix[key := Get(ix, key) + [i]]
  }

  /** Append position `i` under `key`, if there is one. */
  function PutSome<K(==,!new)>(ix: FlatIndex<K>, key: Option<K>, i: nat): (r: FlatIndex<K>)
    ensures forall k :: Get(r, k) == Get(ix, k) + (if key == Some(k) then [i] else [])
  {
    match key
    case None => ix
    case Some(k) => Put(ix, k, i)
  }

  /** Append position `i` under its key for every position of one id's list. */
  function AddPositions<K(==,!new)>(ix: FlatIndex<K>, keys: seq<Option<K>>): FlatIndex<K> {
    if |keys| == 0 then ix
    else PutSome(AddPositions(ix, keys[..|keys| - 1]), keys[|keys| - 1], |keys| - 1)
  }

  /** `PositionsOf` peeled at its last position. */
  lemma PositionsOfLast<K(!new)>(keys: seq<Option<K>>, k: K)
    requires |keys| > 0
    ensures PositionsOf(keys, k) ==
      PositionsOf(keys[..|keys| - 1], k) + (if keys[|keys| - 1] == Some(k) then [|keys| - 1] else [])
  {
  }

  /** Appending a position above every listed one keeps the list ascending. */
  lemma AppendAbove(prev: seq<nat>, n: nat)
    requires StrictlyAscending(prev)
    requires forall j :: 0 <= j < |prev| ==> prev[j] < n
    ensures StrictlyAscending(prev + [n])
    ensures forall j :: 0 <= j < |prev + [n]| ==> (prev + [n])[j] <= n
    ensures forall i: nat :: i in prev + [n] <==> i in prev || i == n
  {
  }

  lemma AppendRegroup(x: seq<nat>, a: seq<nat>, p: seq<nat>, t: seq<nat>)
    requires x == a + p
    ensures x + t == a + (p + t)
  {
  }

  /** Walking one id's list appends, under each key, exactly the positions holding it. */
  lemma {:induction false} AddPositionsGet<K(!new)>(ix: FlatIndex<K>, keys: seq<Option<K>>, k: K)
    ensures Get(AddPositions(ix, keys), k) == Get(ix, k) + PositionsOf(keys, k)
  {
    if |keys| > 0 {
      var n := |keys| - 1;
      var prev := AddPositions(ix, keys[..n]);
      AddPositionsGet(ix, keys[..n], k);
      PositionsOfLast(keys, k);
      var tail: seq<nat> := if keys[n] == Some(k) then [n] else [];
      assert Get(AddPositions(ix, keys), k) == Get(prev, k) + tail;
      AppendRegroup(Get(prev, k), Get(ix, k), PositionsOf(keys[..n], k), tail);
    }
  }

  /** Concatenation, in table order, of every id's positions under `k`. */
  function Gather<K(==,!new)>(ids: seq<string>, keysOf: map<string, seq<Option<K>>>, k: K): seq<nat>
    requires forall e :: e in ids ==> e in keysOf
  {
    if |ids| == 0 then []
    else
      assert forall e :: e in ids[..|ids| - 1] ==> e in ids;
      Gather(ids[..|ids| - 1], keysOf, k) + PositionsOf(keysOf[ids[|ids| - 1]], k)
  }

  /** The loop over the table: every id in order, every position of its list. */
  function Build<K(==,!new)>(ids: seq<string>, keysOf: map<string, seq<Option<K>>>): (r: FlatIndex<K>)
    requires forall e :: e in ids ==> e in keysOf
    ensures forall k :: Get(r, k) == Gather(ids, keysOf, k)
  {
    if |ids| == 0 then map[]
    else
      assert forall e :: e in ids[..|ids| - 1] ==> e in ids;
      var prev := Build(ids[..|ids| - 1], keysOf);
      var keys := keysOf[ids[|ids| - 1]];
      assert forall k :: Get(AddPositions(prev, keys), k) == Get(prev, k) + PositionsOf(keys, k) by {
        forall k ensures Get(AddPositions(prev, keys), k) == Get(prev, k) + PositionsOf(keys, k) {
          AddPositionsGet(prev, keys, k);
        }
      }
      AddPositions(prev, keys)
  }

  /** When every key names the id it came from, and ids are distinct, the positions
      gathered under a key are exactly that one id's positions. */
  lemma {:induction false} GatherOwned<K(!new)>(ids: seq<string>, keysOf: map<string, seq<Option<K>>>,
                                           owner: K -> string, k: K)
    requires forall e :: e in ids ==> e in keysOf
    requires Distinct(ids)
    requires forall e, i :: e in ids && 0 <= i < |keysOf[e]| && keysOf[e][i].Some? ==> owner(keysOf[e][i].value) == e
    ensures Gather(ids, keysOf, k) == if owner(k) in ids then PositionsOf(keysOf[owner(k)], k) else []
  {
    if |ids| > 0 {
      var prefix := ids[..|ids| - 1];
      var last := ids[|ids| - 1];
      assert forall e :: e in prefix ==> e in ids;
      assert Distinct(prefix);
      GatherOwned(prefix, keysOf, owner, k);
      assert last !in prefix;
      assert forall e :: e in ids <==> e in prefix || e == last;
      if owner(k) != last {
        assert forall i :: 0 <= i < |keysOf[last]| ==> keysOf[last][i] != Some(k);
        assert PositionsOf(keysOf[last], k) == [];
      } else {
        assert PositionsOf(keysOf[last], k) == PositionsOf(keysOf[owner(k)], k);
      }
    }
  }
}
