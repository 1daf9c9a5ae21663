/** Facts about map updates that the solver does better with when told. */
module Maps {

  lemma Rebind<K, V>(m: map<K, V>, k: K, a: V, b: V)
    ensures m[k := a][k := b] == m[k := b]
  {
  }

  lemma Unbind<K, V>(m: map<K, V>, k: K, a: V)
    requires k !in m
    ensures m[k := a] - {k} == m
  {
  }

  lemma Without<K, V>(m: map<K, V>, k: K)
    requires k !in m
    ensures m - {k} == m
  {
  }

  lemma PutBack<K, V>(m: map<K, V>, k: K)
    requires k in m
    ensures (m - {k})[k := m[k]] == m
  {
  }

  lemma Restate<K, V>(m: map<K, V>, k: K)
    requires k in m
    ensures m[k := m[k]] == m
  {
  }

  lemma Agree<K, V>(a: map<K, V>, b: map<K, V>)
    requires forall k :: k in a ==> k in b && b[k] == a[k]
    requires forall k :: k in b ==> k in a && a[k] == b[k]
    ensures a == b
  {
  }
}
