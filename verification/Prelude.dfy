/** Values shared by several components: optional results, object references and maps of sets. */
module Prelude {

  datatype Option<+T> = None | Some(value: T)

  /** The answer to listing objects; a kind the cluster does not have is not an error. */
  datatype Listing<+T> = ListError | NoSuchKind | Listed(items: seq<T>)

  /** The delivery phase of a report. */
  datatype Phase = WaitingForDelivery | Processed

  /** A Kubernetes object reference, as the agent's in-memory maps use it for a key. */
  datatype Ref = Ref(kind: string, apiVersion: string, namespace: string, name: string)

  function ToSet<T>(s: seq<T>): set<T> {
    set x | x in s
  }

  /** order lists each member of names exactly once. */
  ghost predicate Enumerates(order: seq<string>, names: set<string>) {
    && (forall i, j | 0 <= i < j < |order| :: order[i] != order[j])
    && ToSet(order) == names
  }

  /** What the map holds for k; a missing entry reads as the empty set. */
  function At<K, V>(m: map<K, set<V>>, k: K): set<V> {
    if k in m then m[k] else {}
  }

  ghost predicate NoEmptySet<K, V>(m: map<K, set<V>>) {
    forall k <- m :: m[k] != {}
  }

  /** Two maps without empty sets are equal when every lookup in them agrees. */
  lemma SameLookupsSameMap<K(!new), V>(m: map<K, set<V>>, n: map<K, set<V>>)
    requires NoEmptySet(m) && NoEmptySet(n)
    requires forall k :: At(m, k) == At(n, k)
    ensures m == n
  {
    forall k | k in m || k in n
      ensures k in m && k in n && m[k] == n[k]
    {
      assert At(m, k) == At(n, k);
    }
  }

  /** m with the members of gone removed from every set and the sets this empties dropped. */
  function Without<K(!new), V>(m: map<K, set<V>>, gone: set<V>): (r: map<K, set<V>>)
    ensures NoEmptySet(r)
    ensures forall k :: At(r, k) == At(m, k) - gone
  {
    map k | k in m && m[k] - gone != {} :: m[k] - gone
  }
}
