/** Namespaces: an entry with namespace index 0 gives a name its index. */
module Names {
  import opened Types
  import opened Sectors
  import opened Flash
  import opened Pages
  import opened PageOps
  import opened Scan
  import opened Store
  import opened Instance
  import opened Moves
  import opened Compaction

  /** The entry that gives a namespace its index is a value of its own, under namespace index 0. */
  function NameKey(name: Key): FullKey { FullKey(0, name) }

  function NameValue(index: nat): Value
    requires index < 256
  {
    Prim(U8, [index as byte] + Ones(7))
  }

  /** The index a namespace entry gives its name. */
  function IndexOf(v: Value): nat { if v.Prim? && v.raw != [] then v.raw[0] as nat else 0 }

  /** The namespaces in RAM are those on flash. */
  ghost predicate NamesOk(nss: map<Key, nat>, kv: Contents) {
    forall n: Key :: NameOk(nss, kv, n)
  }

  ghost predicate NameOk(nss: map<Key, nat>, kv: Contents, n: Key) {
    && (n in nss <==> NameKey(n) in kv)
    && (n in nss ==> 1 <= nss[n] <= 254 && IndexOf(kv[NameKey(n)]) == nss[n])
  }

  /** The index `name` has, or the one it will be given. */
  ghost predicate NameIndex(kv: Contents, name: Key, index: nat) {
    && 1 <= index <= 254
    && if NameKey(name) in kv then index == IndexOf(kv[NameKey(name)]) else NextIndex(kv, index)
  }

  /** One above the largest index in use. */
  ghost predicate NextIndex(kv: Contents, index: nat) {
    && (forall n: Key | NameKey(n) in kv :: IndexOf(kv[NameKey(n)]) < index)
    && (index == 1 || exists n: Key :: NameKey(n) in kv && IndexOf(kv[NameKey(n)]) == index - 1)
  }

  lemma OneIndex(kv: Contents, name: Key, i: nat, j: nat)
    requires NameIndex(kv, name, i) && NameIndex(kv, name, j)
    ensures i == j
  {}

  function WithName(kv: Contents, name: Key, index: nat): Contents
    requires index < 256
  {
    if NameKey(name) in kv then kv else Update(kv, NameKey(name), Some(NameValue(index)))
  }

  /** Every key belongs to a namespace that has its entry. */
  ghost predicate Named(kv: Contents) {
    forall k | k in kv && k.ns != 0 :: exists n: Key :: NameKey(n) in kv && IndexOf(kv[NameKey(n)]) == k.ns
  }

  /** If the namespace is new, the index it will get has no value under this key: nothing was left
      behind by a namespace whose own entry is gone. The setters do not look. */
  ghost predicate NothingLeft(kv: Contents, name: Key, key: Key) {
    NameKey(name) in kv || forall i: nat | NameIndex(kv, name, i) :: Get(kv, FullKey(i, key)).None?
  }

  /** In a store where every key has its namespace, that is always so. */
  lemma NamedNothingLeft(kv: Contents, name: Key, key: Key)
    requires Named(kv)
    ensures NothingLeft(kv, name, key)
  {
    forall i: nat | NameIndex(kv, name, i) && NameKey(name) !in kv ensures Get(kv, FullKey(i, key)).None? {
      NoneAbove(kv, name, i);
    }
  }

  lemma NoneAbove(kv: Contents, name: Key, i: nat)
    requires Named(kv) && NameIndex(kv, name, i) && NameKey(name) !in kv
    ensures forall k | k in kv :: k.ns != i
  {
    forall k | k in kv && k.ns != 0 ensures k.ns != i {
      var n: Key :| NameKey(n) in kv && IndexOf(kv[NameKey(n)]) == k.ns;
    }
  }

  /** kv is kv0, with the namespace's entry at most. */
  ghost predicate Opened(kv0: Contents, kv: Contents, nss: map<Key, nat>, name: Key) {
    && (kv == kv0 || name in nss)
    && (name in nss ==> NameIndex(kv0, name, nss[name]) && (kv == kv0 || kv == WithName(kv0, name, nss[name])))
  }

  /** The name is new and the largest index is taken. */
  ghost predicate NamesFull(kv: Contents, name: Key) {
    NameKey(name) !in kv && exists n: Key :: NameKey(n) in kv && IndexOf(kv[NameKey(n)]) >= 254
  }

  /** What nvs.rs and items.rs refuse before they look at anything: the last byte of both is a null. */
  function KeyRefusal(namespace: Key, key: Key): Option<Error> {
    if key[MAX_KEY_LENGTH] != 0 then Some(KeyMalformed)
    else if namespace[MAX_KEY_LENGTH] != 0 then Some(NamespaceMalformed)
    else None
  }

  /** That is, a name without a null in its last byte, whichever the other bytes are. */
  lemma Refusals(namespace: Key, key: Key)
    ensures KeyRefusal(namespace, key) == Some(KeyMalformed) <==> key[|key| - 1] != 0
    ensures KeyRefusal(namespace, key) == Some(NamespaceMalformed) <==>
              key[|key| - 1] == 0 && namespace[|namespace| - 1] != 0
    ensures KeyRefusal(namespace, key) in {None, Some(KeyMalformed), Some(NamespaceMalformed)}
  {}

  /** types.rs, Key::from_slice: a name of at most 15 bytes, padded with nulls. */
  function KeyNamed(name: seq<byte>): Key
    requires |name| <= 15
  {
    name + seq(16 - |name|, i => 0 as byte)
  }

  /** No such name is refused, */
  lemma NamesAccepted(namespace: seq<byte>, key: seq<byte>)
    requires |namespace| <= 15 && |key| <= 15
    ensures KeyRefusal(KeyNamed(namespace), KeyNamed(key)).None?
  {
    Refusals(KeyNamed(namespace), KeyNamed(key));
  }

  /** and no two of them, without nulls of their own, are the same key. */
  lemma NamesTold(m: seq<byte>, n: seq<byte>)
    requires |m| <= 15 && |n| <= 15 && 0 !in m && 0 !in n && KeyNamed(m) == KeyNamed(n)
    ensures m == n
  {
    FirstNull(m);
    FirstNull(n);
    assert m == KeyNamed(m)[..|m|] && n == KeyNamed(n)[..|n|];
  }

  lemma FirstNull(name: seq<byte>)
    requires |name| <= 15 && 0 !in name
    ensures KeyNamed(name)[|name|] == 0 && forall j | 0 <= j < |name| :: KeyNamed(name)[j] != 0
  {}

  /** get_or_create_namespace refuses a name exactly then. */
  lemma NamesFullBy(nss: map<Key, nat>, kv: Contents, name: Key, m: Option<nat>)
    requires NamesOk(nss, kv) && (m.None? ==> nss == map[])
    requires m.Some? ==> (forall n | n in nss :: nss[n] <= m.value) && exists n :: n in nss && nss[n] == m.value
    ensures NamesFull(kv, name) <==> name !in nss && m.Some? && m.value >= 254
  {
    assert NameOk(nss, kv, name);
    if m.Some? {
      var n :| n in nss && nss[n] == m.value;
      assert NameOk(nss, kv, n);
    }
    forall n: Key | NameKey(n) in kv ensures n in nss && IndexOf(kv[NameKey(n)]) == nss[n] {
      assert NameOk(nss, kv, n);
    }
  }

  lemma KnownNotFull(nss: map<Key, nat>, kv: Contents, name: Key)
    requires NamesOk(nss, kv) && name in nss
    ensures !NamesFull(kv, name)
  {
    assert NameOk(nss, kv, name);
  }

  function NamespaceItem(name: Key, index: nat): Item
    requires index < 256
  {
    Item(0, U8, 1, NO_CHUNK, name, Raw([index as byte] + Ones(7)))
  }

  lemma NamesOpened(nss: map<Key, nat>, kv: Contents, name: Key)
    requires NamesOk(nss, kv)
    ensures Opened(kv, kv, nss, name)
  {
    assert NameOk(nss, kv, name);
  }

  lemma NameKnown(nss: map<Key, nat>, kv: Contents, name: Key)
    requires NamesOk(nss, kv) && name in nss
    ensures 1 <= nss[name] <= 254 && NameKey(name) in kv && WithName(kv, name, nss[name]) == kv
    ensures Opened(kv, kv, nss, name) && NameIndex(kv, name, nss[name])
  {
    assert NameOk(nss, kv, name);
  }

  lemma NameBound(nss: map<Key, nat>, kv: Contents, name: Key)
    requires NamesOk(nss, kv) && name in nss
    ensures 1 <= nss[name] <= 254
  {
    assert NameOk(nss, kv, name);
  }

  /** One more than the largest index is free. */
  lemma NameFresh(nss: map<Key, nat>, kv: Contents, name: Key, index: nat, m: Option<nat>)
    requires NamesOk(nss, kv) && name !in nss && index == (if m.Some? then m.value + 1 else 1) && index <= 254
    requires m.None? ==> nss == map[]
    requires m.Some? ==> (forall n | n in nss :: nss[n] <= m.value) && exists n :: n in nss && nss[n] == m.value
    ensures NameIndex(kv, name, index) && NameKey(name) !in kv && Get(kv, NameKey(name)).None?
  {
    assert NameOk(nss, kv, name);
    forall n: Key | NameKey(n) in kv ensures IndexOf(kv[NameKey(n)]) < index { assert NameOk(nss, kv, n); }
    if m.Some? {
      var n :| n in nss && nss[n] == m.value;
      assert NameOk(nss, kv, n) && NameKey(n) in kv;
    }
  }

  lemma NameAdded(nss: map<Key, nat>, kv: Contents, name: Key, index: nat)
    requires NamesOk(nss, kv) && NameIndex(kv, name, index) && NameKey(name) !in kv
    ensures NamesOk(nss[name := index], WithName(kv, name, index))
    ensures Opened(kv, WithName(kv, name, index), nss[name := index], name)
  {
    IndexByte(index);
    var nss2, kv2 := nss[name := index], WithName(kv, name, index);
    assert IndexOf(NameValue(index)) == index;
    forall n: Key ensures NameOk(nss2, kv2, n) { assert NameOk(nss, kv, n); }
  }

  /** Setting a key of another namespace index leaves the names alone. */
  lemma NamesKept(nss: map<Key, nat>, kv: Contents, k: FullKey, v: Value)
    requires NamesOk(nss, kv) && k.ns != 0
    ensures NamesOk(nss, Update(kv, k, Some(v)))
  {
    forall n: Key ensures NameOk(nss, Update(kv, k, Some(v)), n) { assert NameOk(nss, kv, n); }
  }

  /** The outcome of a set: the key has its new value, and nothing else changed but, for a new
      namespace, its entry. */
  ghost predicate IsSet(kv0: Contents, kv: Contents, nss: map<Key, nat>, name: Key, key: Key, v: Value) {
    && name in nss && NameIndex(kv0, name, nss[name])
    && kv == Update(WithName(kv0, name, nss[name]), FullKey(nss[name], key), Some(v))
  }

  lemma AlreadySet(kv: Contents, nss: map<Key, nat>, name: Key, key: Key, v: Value)
    requires NamesOk(nss, kv) && name in nss && Update(kv, FullKey(nss[name], key), Some(v)) == kv
    ensures IsSet(kv, kv, nss, name, key, v)
  {
    NameKnown(nss, kv, name);
  }

  lemma OpenedIndex(kv0: Contents, kv: Contents, nss: map<Key, nat>, name: Key)
    requires Opened(kv0, kv, nss, name) && name in nss
    ensures NameIndex(kv0, name, nss[name])
  {}

  /** The power went during a set: the flash stands for the old contents, or for those with just
      this key set, after the namespace's entry if that is new. */
  ghost predicate CutDuringSet(h: Hal, kv: Contents, name: Key, key: Key, v: Value) {
    Recovers(h, kv) || exists index: nat :: NameIndex(kv, name, index) && CutInNamespace(h, kv, name, index, key, v)
  }

  ghost predicate CutInNamespace(h: Hal, kv: Contents, name: Key, index: nat, key: Key, v: Value)
    requires index < 256
  {
    || Recovers(h, WithName(kv, name, index))
    || Recovers(h, Update(WithName(kv, name, index), FullKey(index, key), Some(v)))
  }

  lemma CutEarly(h: Hal, kv: Contents, name: Key, key: Key, v: Value)
    requires Recovers(h, kv) || exists index: nat ::
               NameIndex(kv, name, index) && Recovers(h, WithName(kv, name, index))
    ensures CutDuringSet(h, kv, name, key, v)
  {
    hide Recovers;
    if !Recovers(h, kv) {
      var index: nat :| NameIndex(kv, name, index) && Recovers(h, WithName(kv, name, index));
      assert CutInNamespace(h, kv, name, index, key, v);
    }
  }

  lemma CutOpened(h: Hal, kv0: Contents, kv: Contents, name: Key, index: nat, key: Key, v: Value)
    requires NameIndex(kv0, name, index) && kv == WithName(kv0, name, index)
    requires Recovers(h, kv) || Recovers(h, Update(kv, FullKey(index, key), Some(v)))
    ensures CutDuringSet(h, kv0, name, key, v)
  {
    hide Recovers;
    assert CutInNamespace(h, kv0, name, index, key, v);
  }

  /** A namespace that was there keeps its keys; one that is new has the key if something was left. */
  lemma FreshKey(nss: map<Key, nat>, kv0: Contents, kv: Contents, name: Key, index: nat, key: Key)
    requires NamesOk(nss, kv0) && NameIndex(kv0, name, index) && kv == WithName(kv0, name, index)
    ensures Get(kv, FullKey(index, key)) == Get(kv0, FullKey(index, key))
    ensures name !in nss ==> (NothingLeft(kv0, name, key) <==> Get(kv, FullKey(index, key)).None?)
    ensures name in nss ==> index == nss[name] && NothingLeft(kv0, name, key)
  {
    assert NameOk(nss, kv0, name);
    if name in nss { NameKnown(nss, kv0, name); OneIndex(kv0, name, index, nss[name]); }
    forall i: nat | NameIndex(kv0, name, i) ensures i == index { OneIndex(kv0, name, i, index); }
  }

  lemma KnownLeft(nss: map<Key, nat>, kv: Contents, name: Key, key: Key)
    requires NamesOk(nss, kv) && name in nss
    ensures NothingLeft(kv, name, key)
  {
    assert NameOk(nss, kv, name);
  }

  lemma IndexByte(index: nat)
    requires index < 256
    ensures (index as byte) as nat == index
  {
    ByteNumber(index);
  }

  /** kv without one key, if its namespace exists. */
  function KeyRemoved(kv: Contents, nss: map<Key, nat>, name: Key, key: Key): Contents {
    if name in nss then Update(kv, FullKey(nss[name], key), None) else kv
  }

  lemma NamesLeft(nss: map<Key, nat>, kv: Contents, k: FullKey)
    requires NamesOk(nss, kv) && k.ns != 0
    ensures NamesOk(nss, Update(kv, k, None))
  {
    forall n: Key ensures NameOk(nss, Update(kv, k, None), n) { assert NameOk(nss, kv, n); }
  }
}
