/** The creation table behind RequestEngine::AddToFactory. */
module Factory {

  /** m_map after a list of calls Add(key, function): map::insert keeps the
      entry that is already there. */
  function AddAll<K(==), F>(adds: seq<(K, F)>): (m: map<K, F>)
  {
    if adds == [] then map[]
    else
      var n := |adds| - 1;
      var m := AddAll(adds[..n]);
      if adds[n].0 in m then m else m[adds[n].0 := adds[n].1]
  }

  ghost predicate FirstFor<K, F>(adds: seq<(K, F)>, key: K, i: nat)
  {
    i < |adds| && adds[i].0 == key && forall j :: 0 <= j < i ==> adds[j].0 != key
  }

  /** A key has an entry exactly when it was ever added. */
  lemma {:induction false} KeysAreThoseAdded<K(!new), F(!new)>(adds: seq<(K, F)>, key: K)
    ensures key in AddAll(adds) <==> exists i :: 0 <= i < |adds| && adds[i].0 == key
    decreases |adds|
  {
    if adds != [] {
      var n := |adds| - 1;
      KeysAreThoseAdded(adds[..n], key);
      assert forall i :: 0 <= i < n ==> adds[..n][i] == adds[i];
    }
  }

  /** The entry is the first one added. */
  lemma {:induction false} FirstRegistrationWins<K(!new), F(!new)>(adds: seq<(K, F)>, key: K, i: nat)
    requires FirstFor(adds, key, i)
    ensures key in AddAll(adds) && AddAll(adds)[key] == adds[i].1
    decreases |adds|
  {
    var n := |adds| - 1;
    if i < n {
      FirstRegistrationWins(adds[..n], key, i);
    } else {
      KeysAreThoseAdded(adds[..n], key);
      assert forall j :: 0 <= j < n ==> adds[..n][j] == adds[j];
    }
  }

  class Factory<K(==), F> {
    var m_map: map<K, F>
    ghost var adds: seq<(K, F)>

    ghost predicate Valid()
      reads this
    {
      m_map == AddAll(adds)
    }

    constructor ()
      ensures Valid() && adds == []
    {
      m_map, adds := map[], [];
    }

    /** Reports whether the key was new. */
    method Add(key: K, creator: F) returns (added: bool)
      requires Valid()
      modifies this
      ensures Valid() && adds == old(adds) + [(key, creator)]
      ensures added <==> key !in old(m_map)
      ensures m_map == if added then old(m_map)[key := creator] else old(m_map)
    {
      added := key !in m_map;
      if added {
        m_map := m_map[key := creator];
      }
      adds := adds + [(key, creator)];
      assert adds[..|adds| - 1] == old(adds);
    }

    /** The creation function found for a key; looking up a key never added is
        undefined in the original. */
    method Create(key: K) returns (creator: F)
      requires Valid() && key in m_map
      ensures creator == AddAll(adds)[key]
    {
      creator := m_map[key];
    }
  }
}
