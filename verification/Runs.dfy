/** Whole runs: a store that is written, cut off, and booted again, over and over, as the budget
    sweeps of the repository do (tests/recovery.rs), but for every run. */
module Runs {
  import opened Types
  import opened Sectors
  import opened Flash
  import opened Pages
  import opened PageOps
  import opened Scan
  import opened Store
  import opened Instance
  import opened Names
  import opened Setting
  import opened BlobWrites
  import opened Lookup
  import opened Stale
  import opened Winners
  import opened Observations
  import opened Cleanup
  import opened Survivors
  import opened Recovery
  import opened Boot
  import opened NvsModule
  import opened Conditions

  datatype Command = SetTo(namespace: Key, key: Key, value: NewValue) | Remove(namespace: Key, key: Key)

  /** A primitive has a primitive type. */
  predicate Formed(cmd: Command) {
    cmd.SetTo? && cmd.value.NewPrimitive? ==> |cmd.value.bytes| == 8 && PrimitiveWidth(cmd.value.typ).Some?
  }

  ghost predicate Legal(c: Codec, ws: nat, cmd: Command) { Formed(cmd) && (cmd.SetTo? ==> ValueSafe(c, ws, cmd.value)) }

  // ---- what a command may do to the contents ----

  /** Exactly what a command is for. */
  ghost predicate Done(kv: Contents, cmd: Command, kv2: Contents) {
    Formed(cmd) && match cmd
    case SetTo(name, key, value) =>
      exists i: nat :: NameIndex(kv, name, i) && SetAt(kv, name, i, key, ValueFor(value), kv2)
    case Remove(name, key) =>
      if NameKey(name) in kv then kv2 == Update(kv, FullKey(IndexOf(kv[NameKey(name)]), key), None) else kv2 == kv
  }

  ghost predicate SetAt(kv: Contents, name: Key, index: nat, key: Key, v: Value, kv2: Contents)
    requires index < 256
  {
    kv2 == Update(WithName(kv, name, index), FullKey(index, key), Some(v))
  }

  /** Nothing, or at most the entry of a namespace that was new. */
  ghost predicate Undone(kv: Contents, cmd: Command, kv2: Contents) {
    || kv2 == kv
    || (cmd.SetTo? && exists i: nat :: NameIndex(kv, cmd.namespace, i) && kv2 == WithName(kv, cmd.namespace, i))
  }

  /** All or nothing when the power goes, all when the command is confirmed, nothing when it is refused. */
  ghost predicate Outcome(kv: Contents, cmd: Command, r: Result<Unit>, kv2: Contents) {
    && (r.Ok? ==> Done(kv, cmd, kv2))
    && (r.Err? && r.error != FlashError ==> Undone(kv, cmd, kv2))
    && (r == Err(FlashError) ==> Done(kv, cmd, kv2) || Undone(kv, cmd, kv2))
  }

  lemma SetDone(nss: map<Key, nat>, kv: Contents, cmd: Command, kv2: Contents)
    requires cmd.SetTo? && Formed(cmd)
    requires IsSet(kv, kv2, nss, cmd.namespace, cmd.key, ValueFor(cmd.value))
    ensures Done(kv, cmd, kv2)
  {
    assert SetAt(kv, cmd.namespace, nss[cmd.namespace], cmd.key, ValueFor(cmd.value), kv2);
  }

  lemma SetUndone(nss: map<Key, nat>, kv: Contents, cmd: Command, kv2: Contents)
    requires cmd.SetTo? && Opened(kv, kv2, nss, cmd.namespace)
    ensures Undone(kv, cmd, kv2)
  {}

  lemma SetCut(h: Hal, kv: Contents, cmd: Command) returns (kv2: Contents)
    requires cmd.SetTo? && Formed(cmd)
    requires CutDuringSet(h, kv, cmd.namespace, cmd.key, ValueFor(cmd.value))
    ensures Recovers(h, kv2) && (Done(kv, cmd, kv2) || Undone(kv, cmd, kv2))
  {
    hide Recovers;
    if Recovers(h, kv) { return kv; }
    var i: nat :| NameIndex(kv, cmd.namespace, i) &&
        CutInNamespace(h, kv, cmd.namespace, i, cmd.key, ValueFor(cmd.value));
    if Recovers(h, WithName(kv, cmd.namespace, i)) { return WithName(kv, cmd.namespace, i); }
    kv2 := Update(WithName(kv, cmd.namespace, i), FullKey(i, cmd.key), Some(ValueFor(cmd.value)));
    assert SetAt(kv, cmd.namespace, i, cmd.key, ValueFor(cmd.value), kv2);
  }

  lemma RemoveDone(nss: map<Key, nat>, kv: Contents, cmd: Command)
    requires cmd.Remove? && NamesOk(nss, kv)
    ensures Done(kv, cmd, KeyRemoved(kv, nss, cmd.namespace, cmd.key)) && Undone(kv, cmd, kv)
  {
    assert NameOk(nss, kv, cmd.namespace);
  }

  // ---- when a command is confirmed ----

  /** What a command is refused for, whatever is on flash. */
  function Refusal(cmd: Command): Option<Error> {
    match cmd
    case SetTo(name, key, value) => SetRefusal(name, key, value)
    case Remove(name, key) => KeyRefusal(name, key)
  }

  /** The pages a command may take from the reserve. */
  function Takes(cmd: Command): nat { if cmd.SetTo? then PagesUsed(cmd.value) else 0 }

  function TakesAll(cmds: seq<Command>): nat {
    if cmds == [] then 0 else TakesAll(cmds[..|cmds| - 1]) + Takes(cmds[|cmds| - 1])
  }

  /** In numbers: two pages for a primitive or a string, and for a blob one more for every 4000 bytes. */
  lemma CommandTakes(cmd: Command)
    ensures cmd.Remove? ==> Takes(cmd) == 0
    ensures cmd.SetTo? && !cmd.value.NewBlob? ==> Takes(cmd) == 2
    ensures cmd.SetTo? && cmd.value.NewBlob? ==>
              4000 * (Takes(cmd) - 3) < |cmd.value.data| <= 4000 * (Takes(cmd) - 2)
  {}

  /** A malformed command is refused for what is wrong with it and changes nothing. Any other fails only
      if the power goes, if its name is one too many, or for want of pages. */
  ghost predicate Answered(kv: Contents, cmd: Command, reserve: nat, r: Result<Unit>, kv2: Contents, reserve2: nat) {
    match Refusal(cmd)
    case Some(e) => r == Err(e) && kv2 == kv && reserve2 == reserve
    case None =>
      && (r.Err? ==> r.error == FlashError || NameRefused(kv, cmd, r.error) || PagesWanting(cmd, reserve, r.error))
      && (cmd.SetTo? && NamesFull(kv, cmd.namespace) ==> r.Err?)
      && (r != Err(FlashError) && reserve > Takes(cmd) ==> reserve2 + Takes(cmd) >= reserve)
  }

  ghost predicate NameRefused(kv: Contents, cmd: Command, e: Error) {
    cmd.SetTo? && e == TooManyNamespaces && NamesFull(kv, cmd.namespace)
  }

  predicate PagesWanting(cmd: Command, reserve: nat, e: Error) {
    cmd.SetTo? && e in {FlashFull, ValueTooLong} && reserve <= Takes(cmd)
  }

  /** n more namespaces can be created. */
  ghost predicate IndicesLeft(kv: Contents, n: nat) {
    n <= 254 && forall m: Key | NameKey(m) in kv :: IndexOf(kv[NameKey(m)]) + n <= 254
  }

  /** Well-formed commands, with pages in reserve for all of them and indices for their names. */
  ghost predicate Ample(cmds: seq<Command>, kv: Contents, reserve: nat) {
    && (forall i | 0 <= i < |cmds| :: Refusal(cmds[i]).None?)
    && TakesAll(cmds) < reserve && IndicesLeft(kv, |cmds|)
  }

  /** A command takes one index at most. */
  lemma IndexTaken(kv: Contents, cmd: Command, r: Result<Unit>, kv2: Contents, n: nat)
    requires Outcome(kv, cmd, r, kv2) && IndicesLeft(kv, n + 1)
    ensures IndicesLeft(kv2, n)
  {
    hide Outcome;
    forall m: Key | NameKey(m) in kv2 ensures IndexOf(kv2[NameKey(m)]) + n <= 254 { NameTaken(kv, cmd, r, kv2, n, m); }
  }

  lemma NameTaken(kv: Contents, cmd: Command, r: Result<Unit>, kv2: Contents, n: nat, m: Key)
    requires Outcome(kv, cmd, r, kv2) && IndicesLeft(kv, n + 1) && NameKey(m) in kv2
    ensures IndexOf(kv2[NameKey(m)]) + n <= 254
  {
    hide NextIndex;
    if Undone(kv, cmd, kv2) {
      if kv2 != kv {
        var i: nat :| NameIndex(kv, cmd.namespace, i) && kv2 == WithName(kv, cmd.namespace, i);
        NameTakenWith(kv, cmd.namespace, i, n, m);
      }
    } else {
      match cmd
      case SetTo(name, key, value) =>
        var i: nat :| NameIndex(kv, name, i) && SetAt(kv, name, i, key, ValueFor(value), kv2);
        assert kv2[NameKey(m)] == WithName(kv, name, i)[NameKey(m)];
        NameTakenWith(kv, name, i, n, m);
      case Remove(name, key) =>
        assert kv2[NameKey(m)] == kv[NameKey(m)];
    }
  }

  lemma NameTakenWith(kv: Contents, name: Key, i: nat, n: nat, m: Key)
    requires NameIndex(kv, name, i) && IndicesLeft(kv, n + 1) && NameKey(m) in WithName(kv, name, i)
    ensures IndexOf(WithName(kv, name, i)[NameKey(m)]) + n <= 254
  {
    IndexByte(i);
    if NameKey(name) !in kv && m == name && i != 1 {
      var last: Key :| NameKey(last) in kv && IndexOf(kv[NameKey(last)]) == i - 1;
    }
  }

  lemma IndexFree(kv: Contents, name: Key)
    requires IndicesLeft(kv, 1)
    ensures !NamesFull(kv, name)
  {}

  /** With power that lasts and enough in reserve, every well-formed command is confirmed. */
  lemma {:induction false} AllConfirmed(cmds: seq<Command>, replies: seq<Result<Unit>>, trace: seq<Contents>,
                                        reserves: seq<nat>, n: nat)
    requires n <= |replies| <= |cmds| && |trace| == |reserves| == |replies| + 1
    requires forall i | 0 <= i < |replies| :: Outcome(trace[i], cmds[i], replies[i], trace[i + 1])
    requires forall i | 0 <= i < |replies| ::
               Answered(trace[i], cmds[i], reserves[i], replies[i], trace[i + 1], reserves[i + 1])
    requires forall i | 0 <= i < |replies| :: replies[i] != Err(FlashError)
    requires Ample(cmds, trace[0], reserves[0])
    ensures forall i | 0 <= i < n :: replies[i].Ok?
    ensures IndicesLeft(trace[n], |cmds| - n) && reserves[n] + TakesAll(cmds[..n]) >= reserves[0]
  {
    hide Outcome, IndicesLeft, Answered, Takes;
    if n > 0 {
      AllConfirmed(cmds, replies, trace, reserves, n - 1);
      var i := n - 1;
      TakesMore(cmds, n);
      IndexTaken(trace[i], cmds[i], replies[i], trace[n], |cmds| - n);
      FewerIndices(trace[i], |cmds| - i);
      Confirmed(trace[i], cmds[i], reserves[i], replies[i], trace[n], reserves[n]);
    }
  }

  lemma FewerIndices(kv: Contents, n: nat)
    requires IndicesLeft(kv, n) && n > 0
    ensures IndicesLeft(kv, 1)
  {}

  lemma Confirmed(kv: Contents, cmd: Command, reserve: nat, r: Result<Unit>, kv2: Contents, reserve2: nat)
    requires Answered(kv, cmd, reserve, r, kv2, reserve2) && Refusal(cmd).None? && r != Err(FlashError)
    requires reserve > Takes(cmd) && IndicesLeft(kv, 1)
    ensures r.Ok? && reserve2 + Takes(cmd) >= reserve
  {
    hide NamesFull, Takes;
    if cmd.SetTo? { IndexFree(kv, cmd.namespace); }
  }

  lemma {:induction false} TakesPrefix(cmds: seq<Command>, n: nat)
    requires n <= |cmds|
    ensures TakesAll(cmds[..n]) <= TakesAll(cmds)
    decreases |cmds|
  {
    if n == |cmds| { assert cmds[..n] == cmds; } else {
      TakesPrefix(cmds[..|cmds| - 1], n);
      assert cmds[..|cmds| - 1][..n] == cmds[..n];
    }
  }

  lemma TakesMore(cmds: seq<Command>, n: nat)
    requires 0 < n <= |cmds|
    ensures TakesAll(cmds[..n]) == TakesAll(cmds[..n - 1]) + Takes(cmds[n - 1])
    ensures TakesAll(cmds[..n]) <= TakesAll(cmds)
  {
    assert cmds[..n][..n - 1] == cmds[..n - 1];
    TakesPrefix(cmds, n);
  }

  // ---- every key keeps its namespace ----

  lemma NamedDone(kv: Contents, cmd: Command, r: Result<Unit>, kv2: Contents)
    requires Outcome(kv, cmd, r, kv2) && Named(kv) && NamesBounded(kv)
    ensures Named(kv2) && NamesBounded(kv2)
  {
    if Undone(kv, cmd, kv2) {
      if kv2 != kv {
        var i: nat :| NameIndex(kv, cmd.namespace, i) && kv2 == WithName(kv, cmd.namespace, i);
        NamedWith(kv, cmd.namespace, i);
      }
    } else {
      match cmd
      case SetTo(name, key, value) =>
        var i: nat :| NameIndex(kv, name, i) && SetAt(kv, name, i, key, ValueFor(value), kv2);
        NamedWith(kv, name, i);
        NamedUpdate(WithName(kv, name, i), name, FullKey(i, key), Some(ValueFor(value)));
      case Remove(name, key) =>
        if NameKey(name) in kv { NamedUpdate(kv, name, FullKey(IndexOf(kv[NameKey(name)]), key), None); }
    }
  }

  /** No name has index 0, the namespace of the names themselves. */
  ghost predicate NamesBounded(kv: Contents) { forall n: Key | NameKey(n) in kv :: 1 <= IndexOf(kv[NameKey(n)]) <= 254 }

  lemma NamesAreBounded(nss: map<Key, nat>, kv: Contents)
    requires NamesOk(nss, kv)
    ensures NamesBounded(kv)
  {
    forall n: Key | NameKey(n) in kv ensures 1 <= IndexOf(kv[NameKey(n)]) <= 254 { assert NameOk(nss, kv, n); }
  }

  lemma NamedWith(kv: Contents, name: Key, index: nat)
    requires Named(kv) && NamesBounded(kv) && NameIndex(kv, name, index)
    ensures Named(WithName(kv, name, index)) && NamesBounded(WithName(kv, name, index))
    ensures NameKey(name) in WithName(kv, name, index) && IndexOf(WithName(kv, name, index)[NameKey(name)]) == index
  {
    IndexByte(index);
    var kv2 := WithName(kv, name, index);
    forall k | k in kv2 && k.ns != 0 ensures exists n: Key :: NameKey(n) in kv2 && IndexOf(kv2[NameKey(n)]) == k.ns {
      var n: Key :| NameKey(n) in kv && IndexOf(kv[NameKey(n)]) == k.ns;
      assert NameKey(n) in kv2 && IndexOf(kv2[NameKey(n)]) == k.ns;
    }
  }

  lemma NamedUpdate(kv: Contents, name: Key, k: FullKey, v: Option<Value>)
    requires Named(kv) && NamesBounded(kv) && NameKey(name) in kv && k.ns == IndexOf(kv[NameKey(name)])
    ensures Named(Update(kv, k, v)) && NamesBounded(Update(kv, k, v))
  {
    var kv2 := Update(kv, k, v);
    forall j | j in kv2 && j.ns != 0 ensures exists n: Key :: NameKey(n) in kv2 && IndexOf(kv2[NameKey(n)]) == j.ns {
      if j == k { assert NameKey(name) in kv2; }
      else {
        var n: Key :| NameKey(n) in kv && IndexOf(kv[NameKey(n)]) == j.ns;
        assert NameKey(n) in kv2;
      }
    }
  }

  // ---- reading back ----

  /** Two namespaces never share an index. */
  ghost predicate NamesApart(kv: Contents) {
    forall m: Key, n: Key | NameKey(m) in kv && NameKey(n) in kv &&
    IndexOf(kv[NameKey(m)]) == IndexOf(kv[NameKey(n)]) :: m == n
  }

  lemma NamesStayApart(kv: Contents, cmd: Command, r: Result<Unit>, kv2: Contents)
    requires Outcome(kv, cmd, r, kv2) && NamesApart(kv) && NamesBounded(kv)
    ensures NamesApart(kv2)
  {
    hide NamesApart;
    if Undone(kv, cmd, kv2) {
      if kv2 != kv {
        var i: nat :| NameIndex(kv, cmd.namespace, i) && kv2 == WithName(kv, cmd.namespace, i);
        ApartWith(kv, cmd.namespace, i);
      }
    } else if cmd.SetTo? {
      var i: nat :| NameIndex(kv, cmd.namespace, i) && SetAt(kv, cmd.namespace, i, cmd.key, ValueFor(cmd.value), kv2);
      ApartWith(kv, cmd.namespace, i);
      IndexPositive(kv, cmd.namespace, i);
      ApartKept(WithName(kv, cmd.namespace, i), kv2);
    } else {
      ApartKept(kv, kv2);
    }
  }

  lemma ApartWith(kv: Contents, name: Key, i: nat)
    requires NamesApart(kv) && NameIndex(kv, name, i)
    ensures NamesApart(WithName(kv, name, i))
  {
    IndexByte(i);
  }

  lemma IndexPositive(kv: Contents, name: Key, i: nat)
    requires NameIndex(kv, name, i)
    ensures i > 0
  {}

  lemma ApartKept(kv: Contents, kv2: Contents)
    requires NamesApart(kv) && forall n: Key :: Get(kv2, NameKey(n)) == Get(kv, NameKey(n))
    ensures NamesApart(kv2)
  {}

  /** What a name and a key lead to in some contents. */
  ghost function HeldIn(kv: Contents, name: Key, key: Key): Option<Value> {
    if NameKey(name) in kv then Get(kv, FullKey(IndexOf(kv[NameKey(name)]), key)) else None
  }

  /** An instance whose names are those of the contents sees the same. */
  lemma HeldSame(nss: map<Key, nat>, kv: Contents, name: Key, key: Key)
    requires NamesOk(nss, kv)
    ensures Held(nss, kv, name, key) == HeldIn(kv, name, key)
  {
    assert NameOk(nss, kv, name);
  }

  /** What was set is what the getters see. */
  lemma ReadsBack(kv: Contents, name: Key, key: Key, value: NewValue, kv2: Contents)
    requires Done(kv, SetTo(name, key, value), kv2) && NamesBounded(kv)
    ensures IsHeld(HeldIn(kv2, name, key), value)
  {
    hide IsHeld, SetAt;
    var i: nat :| NameIndex(kv, name, i) && SetAt(kv, name, i, key, ValueFor(value), kv2);
    SetAtHeld(kv, name, i, key, ValueFor(value), kv2);
    HeldValue(HeldIn(kv2, name, key), value);
  }

  lemma SetAtHeld(kv: Contents, name: Key, i: nat, key: Key, v: Value, kv2: Contents)
    requires NameIndex(kv, name, i) && SetAt(kv, name, i, key, v, kv2) && NamesBounded(kv)
    ensures HeldIn(kv2, name, key) == Some(v)
  {
    IndexByte(i);
  }

  lemma RemovedGone(kv: Contents, name: Key, key: Key, kv2: Contents)
    requires Done(kv, Remove(name, key), kv2) && NamesBounded(kv)
    ensures HeldIn(kv2, name, key).None?
  {}

  /** No other name and key is affected, whatever became of the command. */
  lemma OthersUnchanged(kv: Contents, cmd: Command, r: Result<Unit>, kv2: Contents, name: Key, key: Key)
    requires Outcome(kv, cmd, r, kv2) && NamesApart(kv) && NamesBounded(kv) && Named(kv)
    requires name != cmd.namespace || key != cmd.key
    ensures HeldIn(kv2, name, key) == HeldIn(kv, name, key)
  {
    hide Outcome, NamesApart, Named, NamesBounded;
    NameKeeps(kv, cmd, r, kv2, name);
    if NameKey(name) in kv { OtherKeeps(kv, cmd, r, kv2, name, key); }
    else if NameKey(name) in kv2 { NoKeysYet(kv, cmd, r, kv2, name, key); }
  }

  lemma NameKeeps(kv: Contents, cmd: Command, r: Result<Unit>, kv2: Contents, name: Key)
    requires Outcome(kv, cmd, r, kv2) && NamesBounded(kv)
    ensures NameKey(name) in kv ==> NameKey(name) in kv2 && kv2[NameKey(name)] == kv[NameKey(name)]
  {}

  lemma OtherKeeps(kv: Contents, cmd: Command, r: Result<Unit>, kv2: Contents, name: Key, key: Key)
    requires Outcome(kv, cmd, r, kv2) && NamesBounded(kv) && NamesApart(kv) && NameKey(name) in kv
    requires name != cmd.namespace || key != cmd.key
    ensures Get(kv2, FullKey(IndexOf(kv[NameKey(name)]), key)) == Get(kv, FullKey(IndexOf(kv[NameKey(name)]), key))
  {}

  /** A namespace that is new starts empty. */
  lemma NoKeysYet(kv: Contents, cmd: Command, r: Result<Unit>, kv2: Contents, name: Key, key: Key)
    requires Outcome(kv, cmd, r, kv2) && NamesBounded(kv) && Named(kv) && NameKey(name) !in kv && NameKey(name) in kv2
    requires name != cmd.namespace || key != cmd.key
    ensures Get(kv2, FullKey(IndexOf(kv2[NameKey(name)]), key)).None?
  {
    var i := NewName(kv, cmd, r, kv2, name);
    IndexByte(i);
    NoneAbove(kv, name, i);
  }

  lemma NewName(kv: Contents, cmd: Command, r: Result<Unit>, kv2: Contents, name: Key) returns (i: nat)
    requires Outcome(kv, cmd, r, kv2) && NamesBounded(kv) && NameKey(name) !in kv && NameKey(name) in kv2
    ensures cmd.SetTo? && name == cmd.namespace && NameIndex(kv, name, i) && kv2[NameKey(name)] == NameValue(i)
    ensures forall k: FullKey | k.ns == i && k.key != cmd.key :: Get(kv2, k) == Get(kv, k)
  {
    if Undone(kv, cmd, kv2) {
      i :| NameIndex(kv, cmd.namespace, i) && kv2 == WithName(kv, cmd.namespace, i);
    } else {
      i :| NameIndex(kv, cmd.namespace, i) && SetAt(kv, cmd.namespace, i, cmd.key, ValueFor(cmd.value), kv2);
    }
    IndexByte(i);
  }

  // ---- the first boot ----

  /** A partition without a single page header, blank or not, stands for an empty store. */
  lemma NothingStored(h: Hal)
    requires HalOk(h) && forall a | 0 <= a < |h.sectors| :: h.sectors[a].header.None?
    ensures Recovers(h, map[]) && NamesSafe(View(h))
  {
    var vs := View(h);
    assert forall a | 0 <= a < |vs| :: vs[a].Free?;
    forall k: FullKey ensures Resolves(h.codec, Logical(vs, NoGc), NoGc, k, Get(map[], k)) { FreeBags(vs, k); }
    RecoversBy(h, map[], NoGc);
  }

  lemma {:induction false} FreeBags(vs: seq<PageView>, k: FullKey)
    requires forall a | 0 <= a < |vs| :: vs[a].Free?
    ensures Bag(vs, k) == multiset{}
  {
    if vs != [] { FreeBags(vs[..|vs| - 1], k); }
  }

  // ---- runs ----

  /** One instance takes commands until they are done or the power is gone. With power that lasts they
      are all answered, and with pages and indices in reserve the well-formed ones confirmed. */
  method Serve(nvs: Nvs, cmds: seq<Command>)
    returns (replies: seq<Result<Unit>>, ghost trace: seq<Contents>, ghost reserves: seq<nat>)
    requires !nvs.faulted && nvs.Valid() && Named(nvs.contents)
    requires forall i | 0 <= i < |cmds| :: Legal(nvs.hal.codec, nvs.hal.ws, cmds[i])
    modifies nvs
    ensures Later(old(nvs.hal), nvs.hal)
    ensures |replies| <= |cmds| && |trace| == |replies| + 1 && trace[0] == old(nvs.contents)
    ensures |reserves| == |replies| + 1 && reserves[0] == |old(nvs.freePages)|
    ensures forall i | 0 <= i < |replies| :: Outcome(trace[i], cmds[i], replies[i], trace[i + 1])
    ensures forall i | 0 <= i < |replies| ::
              Answered(trace[i], cmds[i], reserves[i], replies[i], trace[i + 1], reserves[i + 1])
    ensures Recovers(nvs.hal, trace[|replies|]) && Named(trace[|replies|])
    ensures |replies| < |cmds| ==> nvs.hal.budget == Some(0)
    ensures old(nvs.hal).budget.None? ==>
              && |replies| == |cmds| && !nvs.faulted && nvs.Valid() && nvs.contents == trace[|cmds|]
              && forall i | 0 <= i < |replies| :: replies[i] != Err(FlashError)
    ensures old(nvs.hal).budget.None? && Ample(cmds, old(nvs.contents), |old(nvs.freePages)|) ==>
              forall i | 0 <= i < |cmds| :: replies[i].Ok?
  {
    hide Steady, Recovers, NamesOk, Named, NothingLeft, CutDuringSet, IsSet, Opened, Outcome, ValueSafe, NamesBounded,
         Done, Undone, Answered, Ample;
    replies := [];
    ghost var kv := nvs.contents;
    trace, reserves := [kv], [|nvs.freePages|];
    ValidFacts(nvs);
    NamesAreBounded(nvs.namespaces, nvs.contents);
    var i := 0;
    while i < |cmds|
      invariant i <= |cmds| && |replies| == i && |trace| == i + 1 && trace[0] == old(nvs.contents) &&
                trace[i] == nvs.contents
      invariant |reserves| == i + 1 && reserves[0] == |old(nvs.freePages)| && reserves[i] == |nvs.freePages|
      invariant Later(old(nvs.hal), nvs.hal) && !nvs.faulted && nvs.Valid() && Recovers(nvs.hal, nvs.contents)
      invariant Named(nvs.contents) && NamesBounded(nvs.contents)
      invariant forall j | 0 <= j < i :: Outcome(trace[j], cmds[j], replies[j], trace[j + 1])
      invariant forall j | 0 <= j < i ::
                  Answered(trace[j], cmds[j], reserves[j], replies[j], trace[j + 1], reserves[j + 1])
      invariant forall j | 0 <= j < i :: replies[j] != Err(FlashError)
    {
      kv := nvs.contents;
      var cmd := cmds[i];
      assert Legal(nvs.hal.codec, nvs.hal.ws, cmd);
      ghost var reserve := |nvs.freePages|;
      var r;
      ghost var kv2;
      r, kv2 := ServeOne(nvs, cmd);
      NamedDone(kv, cmd, r, kv2);
      replies := replies + [r];
      trace, reserves := trace + [kv2], reserves + [|nvs.freePages|];
      i := i + 1;
      if r == Err(FlashError) { return; }
      if r.Err? && nvs.hal.budget == Some(0) {
        // the power went, and only the next boot will tell what is there
        if nvs.Valid() { ValidFacts(nvs); }
        return;
      }
      ValidFacts(nvs);
    }
    if Ample(cmds, old(nvs.contents), |old(nvs.freePages)|) {
      AllConfirmed(cmds, replies, trace, reserves, |cmds|);
    }
  }

  /** One command, and what the contents are then, or what the next boot makes of them. */
  method ServeOne(nvs: Nvs, cmd: Command) returns (r: Result<Unit>, ghost kv2: Contents)
    requires !nvs.faulted && nvs.Valid() && Named(nvs.contents) && Legal(nvs.hal.codec, nvs.hal.ws, cmd)
    requires Recovers(nvs.hal, nvs.contents)
    modifies nvs
    ensures Later(old(nvs.hal), nvs.hal)
    ensures Outcome(old(nvs.contents), cmd, r, kv2)
    ensures Answered(old(nvs.contents), cmd, |old(nvs.freePages)|, r, kv2, |nvs.freePages|)
    ensures nvs.faulted <==> r == Err(FlashError)
    ensures r == Err(FlashError) ==> Recovers(nvs.hal, kv2) && nvs.hal.budget == Some(0)
    ensures r != Err(FlashError) ==> nvs.contents == kv2
    ensures r != Err(FlashError) ==> nvs.Valid() || (r.Err? && nvs.hal.budget == Some(0) && Recovers(nvs.hal, kv2))
  {
    hide Steady, Recovers, NamesOk, Named, NothingLeft, CutDuringSet, IsSet, Opened, Outcome, ValueSafe, Done, Undone,
         NamesFull;
    ghost var kv, nss := nvs.contents, nvs.namespaces;
    ValidFacts(nvs);
    kv2 := kv;
    match cmd {
      case SetTo(name, key, value) =>
        NamedNothingLeft(kv, name, key);
        r := nvs.Set(name, key, value);
        if r.Ok? { SetDone(nvs.namespaces, kv, cmd, nvs.contents); kv2 := nvs.contents; }
        else if r != Err(FlashError) { SetUndone(nvs.namespaces, kv, cmd, nvs.contents); kv2 := nvs.contents; }
        else { kv2 := SetCut(nvs.hal, kv, cmd); }
      case Remove(name, key) =>
        RemoveDone(nss, kv, cmd);
        r := nvs.Delete(name, key);
        if r == Err(FlashError) && !Recovers(nvs.hal, kv) { kv2 := KeyRemoved(kv, nss, name, key); }
        else if r != Err(FlashError) { kv2 := nvs.contents; }
    }
    Ended(kv, cmd, r, kv2);
  }

  lemma Ended(kv: Contents, cmd: Command, r: Result<Unit>, kv2: Contents)
    requires r.Ok? ==> Done(kv, cmd, kv2)
    requires r.Err? && r.error != FlashError ==> Undone(kv, cmd, kv2)
    requires r == Err(FlashError) ==> Done(kv, cmd, kv2) || Undone(kv, cmd, kv2)
    ensures Outcome(kv, cmd, r, kv2)
  {}

  lemma ValidFacts(nvs: Nvs)
    requires nvs.Valid()
    ensures Recovers(nvs.hal, nvs.contents) && NamesOk(nvs.namespaces, nvs.contents)
  {
    hide Steady, Recovers, NamesOk;
    SteadyRecovers(nvs.hal, nvs.pages, nvs.freePages, nvs.contents);
  }

  /** The power comes back and goes again, at any operation of any boot, |cuts| times; then it stays for
      `last` operations, or for good: then the boot gets through. */
  method PowerCycles(h: Hal, cuts: seq<nat>, last: Option<nat>, ghost kv: Contents) returns (nvs: Nvs)
    requires Recovers(h, kv)
    ensures HalOk(h) && SamePart(h, nvs.hal) && KeysKept(kv, nvs.contents)
    ensures !nvs.faulted ==> nvs.Valid()
    ensures nvs.faulted ==> nvs.hal.budget == Some(0) && Recovers(nvs.hal, nvs.contents)
    ensures NamesSafe(View(h)) ==> nvs.contents == kv && (nvs.faulted ==> HalOk(nvs.hal) && NamesSafe(View(nvs.hal)))
    ensures last.None? <==> nvs.hal.budget.None?
    ensures last.None? ==> !nvs.faulted
    ensures fresh(nvs)
  {
    hide Steady, Recovers, NamesOk, View, NamesSafe, KeysKept;
    RecoversHalOk(h, kv);
    var h1 := h;
    ghost var kv1 := kv;
    KeptRefl(h, kv);
    var i := 0;
    while i < |cuts|
      invariant Recovers(h1, kv1) && HalOk(h1) && HalOk(h) && SamePart(h, h1) && KeysKept(kv, kv1)
      invariant NamesSafe(View(h)) ==> kv1 == kv && NamesSafe(View(h1))
    {
      var on := h1.(budget := Some(cuts[i]));
      Recharged(h1, Some(cuts[i]), kv1);
      RecoversFit(on, kv1);
      var n := new Nvs(on, kv1);
      KeptTrans(kv, kv1, n.contents);
      if !n.faulted { BootedSafe(n); }
      h1, kv1 := n.hal, n.contents;
      i := i + 1;
    }
    Recharged(h1, last, kv1);
    RecoversFit(h1.(budget := last), kv1);
    nvs := new Nvs(h1.(budget := last), kv1);
    KeptTrans(kv, kv1, nvs.contents);
  }

  lemma BootedSafe(n: Nvs)
    requires n.Valid()
    ensures HalOk(n.hal) && Recovers(n.hal, n.contents) && NamesSafe(View(n.hal))
  {
    hide Recovers, NamesOk, View, NamesSafe, InstOk, Holds, AllNeat, RecoversIn, FlashOk;
    SteadyIdle(n.hal, n.pages, n.freePages, n.contents);
    SafeIdle(n.hal, n.contents);
  }

  lemma SteadyIdle(h: Hal, ps: seq<ThinPage>, fr: seq<ThinPage>, kv: Contents)
    requires Steady(h, ps, fr, kv)
    ensures RecoversIn(h, kv, NoGc)
  {
    hide InstOk, Holds, FlashOk, RecoversIn, Recovers, AllNeat;
    SteadyRecovers(h, ps, fr, kv);
    HoldsRecoversIn(h, kv);
  }

  lemma RecoversHalOk(h: Hal, kv: Contents)
    requires Recovers(h, kv)
    ensures HalOk(h)
  {
    hide RecoversIn;
    var gc := RecoversGc(h, kv);
    IdleSequences(h, kv, gc);
  }

  /** How long the power lasts next time is not on the flash. */
  lemma Recharged(h: Hal, budget: Option<nat>, kv: Contents)
    requires Recovers(h, kv)
    ensures Recovers(h.(budget := budget), kv) && HalOk(h) && HalOk(h.(budget := budget))
    ensures View(h.(budget := budget)) == View(h)
  {
    hide AllResolve, GcOk, SectorOk, Dense;
    var gc := RecoversGc(h, kv);
    RecoversBy(h.(budget := budget), kv, gc);
  }

  /** Crash atomicity. A store takes any commands, the power goes at any operation of any of them, and
      then again during any number of boots. Once a boot gets through, and one with power that lasts
      does, every confirmed command has its effect, the refused ones have none, and the one the cut
      fell into is there as a whole or not at all. */
  method ServeThroughPowerLoss(nvs: Nvs, cmds: seq<Command>, cuts: seq<nat>, last: Option<nat>)
    returns (up: Nvs, replies: seq<Result<Unit>>, ghost trace: seq<Contents>, ghost reserves: seq<nat>)
    requires !nvs.faulted && nvs.Valid() && Named(nvs.contents)
    requires forall i | 0 <= i < |cmds| :: Legal(nvs.hal.codec, nvs.hal.ws, cmds[i])
    modifies nvs
    ensures |replies| <= |cmds| && |trace| == |reserves| == |replies| + 1
    ensures trace[0] == old(nvs.contents) && reserves[0] == |old(nvs.freePages)|
    ensures forall i | 0 <= i < |replies| :: Outcome(trace[i], cmds[i], replies[i], trace[i + 1])
    ensures forall i | 0 <= i < |replies| ::
              Answered(trace[i], cmds[i], reserves[i], replies[i], trace[i + 1], reserves[i + 1])
    ensures old(nvs.hal).budget.None? ==>
              |replies| == |cmds| && forall i | 0 <= i < |replies| :: replies[i] != Err(FlashError)
    ensures old(nvs.hal).budget.None? && Ample(cmds, old(nvs.contents), |old(nvs.freePages)|) ==>
              forall i | 0 <= i < |cmds| :: replies[i].Ok?
    ensures !up.faulted ==> up.Valid()
    ensures up.faulted ==> up.hal.budget == Some(0)
    ensures last.None? ==> !up.faulted
    ensures HalOk(nvs.hal) && KeysKept(trace[|replies|], up.contents)
    ensures NamesSafe(View(nvs.hal)) ==> up.contents == trace[|replies|] && Named(up.contents)
  {
    hide Steady, Recovers, NamesOk, View, NamesSafe, KeysKept, Named, Outcome, Legal, Answered, Ample;
    replies, trace, reserves := Serve(nvs, cmds);
    up := PowerCycles(nvs.hal, cuts, last, trace[|replies|]);
  }

  /** What happens from one boot to the next: commands, cut boots, and the boot after them, with the
      power it and the next commands have. */
  datatype Round = Round(cmds: seq<Command>, cuts: seq<nat>, last: Option<nat>)

  /** A command, its reply, and the pages in reserve before and after. */
  datatype Step = Step(cmd: Command, reply: Result<Unit>, before: nat, after: nat)

  /** Every step has its effect on the contents, or none, and the reply it deserves. */
  ghost predicate Explained(steps: seq<Step>, trace: seq<Contents>) {
    && |trace| == |steps| + 1
    && forall i | 0 <= i < |steps| :: StepOk(steps[i], trace[i], trace[i + 1])
  }

  ghost predicate StepOk(s: Step, kv: Contents, kv2: Contents) {
    Outcome(kv, s.cmd, s.reply, kv2) && Answered(kv, s.cmd, s.before, s.reply, kv2, s.after)
  }

  function StepsOf(cmds: seq<Command>, replies: seq<Result<Unit>>, reserves: seq<nat>): (r: seq<Step>)
    requires |replies| <= |cmds| && |reserves| == |replies| + 1
    ensures |r| == |replies|
  {
    seq(|replies|, i requires 0 <= i < |replies| => Step(cmds[i], replies[i], reserves[i], reserves[i + 1]))
  }

  lemma ExplainedMore(steps: seq<Step>, trace: seq<Contents>, more: seq<Step>, ahead: seq<Contents>)
    requires Explained(steps, trace) && Explained(more, ahead) && ahead[0] == trace[|steps|]
    ensures Explained(steps + more, trace[..|steps|] + ahead)
    ensures (trace[..|steps|] + ahead)[|steps| + |more|] == ahead[|more|]
    ensures forall i | 0 <= i <= |steps| :: (trace[..|steps|] + ahead)[i] == trace[i]
  {
    hide StepOk;
    var steps2, trace2 := steps + more, trace[..|steps|] + ahead;
    forall i | 0 <= i < |steps2| ensures StepOk(steps2[i], trace2[i], trace2[i + 1]) {
      if i < |steps| { assert trace2[i] == trace[i] && trace2[i + 1] == trace[i + 1]; }
    }
  }

  lemma ServedExplained(cmds: seq<Command>, replies: seq<Result<Unit>>, trace: seq<Contents>, reserves: seq<nat>)
    requires |replies| <= |cmds| && |trace| == |reserves| == |replies| + 1
    requires forall i | 0 <= i < |replies| :: Outcome(trace[i], cmds[i], replies[i], trace[i + 1])
    requires forall i | 0 <= i < |replies| ::
               Answered(trace[i], cmds[i], reserves[i], replies[i], trace[i + 1], reserves[i + 1])
    ensures Explained(StepsOf(cmds, replies, reserves), trace)
  {
    hide Outcome, Answered;
  }

  /** The steps of all rounds. */
  function Flat(log: seq<seq<Step>>): seq<Step> {
    if log == [] then [] else Flat(log[..|log| - 1]) + log[|log| - 1]
  }

  /** The power the commands of round r have. */
  function PowerIn(first: Option<nat>, rounds: seq<Round>, r: nat): Option<nat>
    requires r <= |rounds|
  {
    if r == 0 then first else rounds[r - 1].last
  }

  /** The steps are the round's commands, in order, as far as the power lasted; if it did not run out,
      all of them, and with pages and indices in reserve the well-formed ones are confirmed. */
  ghost predicate RoundServed(cmds: seq<Command>, power: Option<nat>, kv: Contents, steps: seq<Step>) {
    && |steps| <= |cmds| && (forall i | 0 <= i < |steps| :: steps[i].cmd == cmds[i])
    && (forall i | 0 < i < |steps| :: steps[i].before == steps[i - 1].after)
    && (power.None? ==>
          && |steps| == |cmds| && (forall i | 0 <= i < |steps| :: steps[i].reply != Err(FlashError))
          && (steps != [] && Ample(cmds, kv, steps[0].before) ==> forall i | 0 <= i < |steps| :: steps[i].reply.Ok?))
  }

  ghost predicate RoundsServed(rounds: seq<Round>, first: Option<nat>, log: seq<seq<Step>>, trace: seq<Contents>) {
    && |log| <= |rounds|
    && forall r: nat | r < |log| :: RoundAt(rounds, first, log, trace, r)
  }

  ghost predicate RoundAt(rounds: seq<Round>, first: Option<nat>, log: seq<seq<Step>>, trace: seq<Contents>, r: nat)
    requires r < |log| <= |rounds|
  {
    && |Flat(log[..r])| < |trace|
    && RoundServed(rounds[r].cmds, PowerIn(first, rounds, r), trace[|Flat(log[..r])|], log[r])
  }

  lemma {:induction false} FlatGrows(log: seq<seq<Step>>, r: nat)
    requires r <= |log|
    ensures |Flat(log[..r])| <= |Flat(log)|
    decreases |log|
  {
    if r == |log| { assert log[..r] == log; } else {
      FlatGrows(log[..|log| - 1], r);
      assert log[..|log| - 1][..r] == log[..r];
    }
  }

  /** One round more. */
  lemma RoundsMore(rounds: seq<Round>, first: Option<nat>, log: seq<seq<Step>>, trace: seq<Contents>, more: seq<Step>,
                   trace2: seq<Contents>)
    requires RoundsServed(rounds, first, log, trace) && |log| < |rounds| && |trace| == |Flat(log)| + 1 <= |trace2|
    requires forall i | 0 <= i < |trace| :: trace2[i] == trace[i]
    requires RoundServed(rounds[|log|].cmds, PowerIn(first, rounds, |log|), trace[|Flat(log)|], more)
    ensures RoundsServed(rounds, first, log + [more], trace2) && Flat(log + [more]) == Flat(log) + more
  {
    hide RoundServed;
    var log2 := log + [more];
    assert log2[..|log|] == log;
    forall r: nat | r < |log2| ensures RoundAt(rounds, first, log2, trace2, r) {
      FlatGrows(log, if r < |log| then r else 0);
      if r < |log| {
        assert log2[..r] == log[..r];
        assert RoundAt(rounds, first, log, trace, r);
      }
    }
  }

  /** Crash atomicity over any number of rounds: commands, a cut, any number of cut boots, and again.
      As long as no cut leaves a page being moved that holds nothing but names, one sequence of
      contents explains everything: each command served, whichever round it was in, has its effect
      or none, and the last contents are those of the store. Where the power lasts, every command is
      answered, the well-formed ones confirmed if there are pages and indices for them, and the boot
      gets through. */
  method ServeRounds(nvs: Nvs, rounds: seq<Round>)
    returns (up: Nvs, served: nat, ghost log: seq<seq<Step>>, ghost trace: seq<Contents>)
    requires !nvs.faulted && nvs.Valid() && Named(nvs.contents)
    requires forall r, i | 0 <= r < |rounds| && 0 <= i < |rounds[r].cmds| ::
               Legal(nvs.hal.codec, nvs.hal.ws, rounds[r].cmds[i])
    modifies nvs
    ensures served <= |rounds| && Explained(Flat(log), trace) && trace[0] == old(nvs.contents)
    ensures RoundsServed(rounds, old(nvs.hal).budget, log, trace)
    ensures |log| == if served < |rounds| then served + 1 else served
    ensures served == |rounds| ==> up.contents == trace[|Flat(log)|] && Named(up.contents)
    ensures served == |rounds| && PowerIn(old(nvs.hal).budget, rounds, served).None? ==> !up.faulted
    ensures !up.faulted && served == |rounds| ==> up.Valid()
    ensures up.faulted && served == |rounds| ==> up.hal.budget == Some(0) && Recovers(up.hal, up.contents)
    ensures served < |rounds| ==> PowerIn(old(nvs.hal).budget, rounds, served).Some?
    ensures served < |rounds| ==> HalOk(up.hal) && !NamesSafe(View(up.hal)) && Recovers(up.hal, trace[|Flat(log)|])
  {
    hide Steady, Recovers, NamesOk, View, NamesSafe, KeysKept, Named, Outcome, Legal, Explained, Answered, Ample,
         RoundsServed, RoundServed, Flat;
    up, served, log, trace := nvs, 0, [], [nvs.contents];
    ghost var first := nvs.hal.budget;
    RoundsNone(rounds, first, nvs.contents);
    while served < |rounds|
      invariant served <= |rounds| && |trace| == |Flat(log)| + 1 && Explained(Flat(log), trace)
      invariant |log| == served && RoundsServed(rounds, first, log, trace) && trace[0] == old(nvs.contents)
      invariant up == nvs || fresh(up)
      invariant up.contents == trace[|Flat(log)|] && Named(up.contents) && SamePart(old(nvs.hal), up.hal)
      invariant PowerIn(first, rounds, served).None? ==> up.hal.budget.None?
      invariant !up.faulted ==> up.Valid()
      invariant up.faulted ==> up.hal.budget == Some(0) && HalOk(up.hal) && Recovers(up.hal, up.contents) &&
                               NamesSafe(View(up.hal))
    {
      var round := rounds[served];
      ghost var kv, steps, ahead := up.contents, [], [up.contents];
      ExplainedNone(kv);
      if !up.faulted {
        forall i | 0 <= i < |round.cmds| ensures Legal(up.hal.codec, up.hal.ws, round.cmds[i]) {
          assert Legal(old(nvs.hal).codec, old(nvs.hal).ws, rounds[served].cmds[i]);
        }
        var replies;
        ghost var reserves;
        replies, ahead, reserves := Serve(up, round.cmds);
        ServedExplained(round.cmds, replies, ahead, reserves);
        steps := StepsOf(round.cmds, replies, reserves);
        RoundBy(round.cmds, PowerIn(first, rounds, served), kv, replies, reserves);
      } else {
        RoundNone(round.cmds, PowerIn(first, rounds, served), kv);
      }
      ExplainedMore(Flat(log), trace, steps, ahead);
      ghost var trace2 := trace[..|Flat(log)|] + ahead;
      RoundsMore(rounds, first, log, trace, steps, trace2);
      log, trace := log + [steps], trace2;
      kv := trace[|Flat(log)|];
      RecoversHalOk(up.hal, kv);
      if PowerIn(first, rounds, served).None? { BootedSafe(up); }
      if !NamesSafe(View(up.hal)) { return; }
      up := PowerCycles(up.hal, round.cuts, round.last, kv);
      served := served + 1;
    }
  }

  lemma ExplainedNone(kv: Contents)
    ensures Explained([], [kv])
  {}

  lemma RoundsNone(rounds: seq<Round>, first: Option<nat>, kv: Contents)
    ensures RoundsServed(rounds, first, [], [kv]) && Flat([]) == [] && Explained(Flat([]), [kv])
  {}

  lemma RoundNone(cmds: seq<Command>, power: Option<nat>, kv: Contents)
    requires power.Some?
    ensures RoundServed(cmds, power, kv, [])
  {}

  lemma RoundBy(cmds: seq<Command>, power: Option<nat>, kv: Contents, replies: seq<Result<Unit>>, reserves: seq<nat>)
    requires |replies| <= |cmds| && |reserves| == |replies| + 1
    requires power.None? ==> |replies| == |cmds| && forall i | 0 <= i < |replies| :: replies[i] != Err(FlashError)
    requires power.None? && Ample(cmds, kv, reserves[0]) ==> forall i | 0 <= i < |cmds| :: replies[i].Ok?
    ensures RoundServed(cmds, power, kv, StepsOf(cmds, replies, reserves))
  {
    hide Ample;
  }

  // ---- reading after a run ----

  /** What reading a key with the getter for that kind of value is to give. */
  ghost predicate Answers(value: NewValue, utf8: seq<byte> -> bool, back: Result<seq<byte>>) {
    match value
    case NewPrimitive(typ, bytes) => back.Ok? && |bytes| == 8 && LowBytes(typ, bytes, back.value)
    case NewString(text) => back == if utf8(text) then Ok(text) else Err(CorruptedData)
    case NewBlob(data) => back == Ok(data)
  }

  /** Asks the getter for that kind of value. */
  method ReadAs(nvs: Nvs, name: Key, key: Key, value: NewValue, utf8: seq<byte> -> bool, readSize: nat)
    returns (back: Result<seq<byte>>)
    requires nvs.Valid() && readSize >= 1 && (value.NewPrimitive? ==> PrimitiveWidth(value.typ).Some?)
    ensures KeyRefusal(name, key).None? && IsHeld(Held(nvs.namespaces, nvs.contents, name, key), value) ==>
              Answers(value, utf8, back)
  {
    hide Steady, NamesOk, LowBytes;
    Refusals(name, key);
    match value {
      case NewPrimitive(typ, bytes) => back := nvs.GetPrimitive(name, key, typ);
      case NewString(text) => back := nvs.GetString(name, key, utf8);
      case NewBlob(data) => back := nvs.GetBlob(name, key, readSize);
    }
  }

  /** A confirmed set, then the getter: if nothing was left under the index of a new name, it gives
      what was set. */
  method SetAndGet(nvs: Nvs, name: Key, key: Key, value: NewValue, utf8: seq<byte> -> bool, readSize: nat)
    returns (r: Result<Unit>, back: Result<seq<byte>>)
    requires !nvs.faulted && nvs.Valid() && readSize >= 1 && Formed(SetTo(name, key, value))
    requires value.NewPrimitive? || NothingLeft(nvs.contents, name, key)
    modifies nvs
    ensures r.Ok? ==> Answers(value, utf8, back)
  {
    hide Steady, NamesOk, IsHeld, Answers, NothingLeft, IsSet, CutDuringSet, Opened;
    r := nvs.Set(name, key, value);
    back := Err(FlashError);
    if r.Ok? { back := ReadAs(nvs, name, key, value, utf8, readSize); }
  }

  /** Step i is confirmed and sets the key to the value, and no step after it is about the key. */
  ghost predicate LastSet(steps: seq<Step>, i: nat, name: Key, key: Key, value: NewValue) {
    && i < |steps| && steps[i].cmd == SetTo(name, key, value) && steps[i].reply.Ok?
    && forall j | i < j < |steps| :: steps[j].cmd.namespace != name || steps[j].cmd.key != key
  }

  /** Whatever else was served in between, what was set last is what is held. */
  lemma {:induction false} StillHeld(steps: seq<Step>, trace: seq<Contents>, i: nat, n: nat, name: Key, key: Key,
                                     value: NewValue)
    requires Explained(steps, trace) && LastSet(steps, i, name, key, value) && i < n <= |steps|
    requires Named(trace[0]) && NamesBounded(trace[0]) && NamesApart(trace[0])
    ensures IsHeld(HeldIn(trace[n], name, key), value)
    decreases n
  {
    hide Outcome, Answered, Named, NamesBounded, NamesApart, IsHeld, HeldIn;
    NamesThrough(steps, trace, n - 1);
    assert StepOk(steps[n - 1], trace[n - 1], trace[n]);
    if n == i + 1 {
      OutcomeDone(trace[i], steps[i].cmd, steps[i].reply, trace[n]);
      ReadsBack(trace[i], name, key, value, trace[n]);
    } else {
      StillHeld(steps, trace, i, n - 1, name, key, value);
      OthersUnchanged(trace[n - 1], steps[n - 1].cmd, steps[n - 1].reply, trace[n], name, key);
    }
  }

  lemma OutcomeDone(kv: Contents, cmd: Command, r: Result<Unit>, kv2: Contents)
    requires Outcome(kv, cmd, r, kv2) && r.Ok?
    ensures Done(kv, cmd, kv2)
  {
    hide Done, Undone;
  }

  lemma {:induction false} NamesThrough(steps: seq<Step>, trace: seq<Contents>, n: nat)
    requires Explained(steps, trace) && n <= |steps|
    requires Named(trace[0]) && NamesBounded(trace[0]) && NamesApart(trace[0])
    ensures Named(trace[n]) && NamesBounded(trace[n]) && NamesApart(trace[n])
  {
    hide Outcome, Answered, Named, NamesBounded, NamesApart;
    if n > 0 {
      NamesThrough(steps, trace, n - 1);
      assert StepOk(steps[n - 1], trace[n - 1], trace[n]);
      NamedDone(trace[n - 1], steps[n - 1].cmd, steps[n - 1].reply, trace[n]);
      NamesStayApart(trace[n - 1], steps[n - 1].cmd, steps[n - 1].reply, trace[n]);
    }
  }

  lemma ConfirmedKey(s: Step, kv: Contents, kv2: Contents)
    requires StepOk(s, kv, kv2) && s.reply.Ok?
    ensures KeyRefusal(s.cmd.namespace, s.cmd.key).None?
  {
    hide Outcome;
  }

  /** Durability over any number of rounds of commands and power cuts: what a confirmed command set,
      and no later one was about, is what the getter gives in the end. */
  method ServeRoundsAndGet(nvs: Nvs, rounds: seq<Round>, name: Key, key: Key, value: NewValue,
                           utf8: seq<byte> -> bool, readSize: nat)
    returns (up: Nvs, back: Result<seq<byte>>, served: nat, ghost log: seq<seq<Step>>)
    requires !nvs.faulted && nvs.Valid() && Named(nvs.contents) && NamesApart(nvs.contents) && readSize >= 1
    requires forall r, i | 0 <= r < |rounds| && 0 <= i < |rounds[r].cmds| ::
               Legal(nvs.hal.codec, nvs.hal.ws, rounds[r].cmds[i])
    requires Formed(SetTo(name, key, value))
    modifies nvs
    ensures served < |rounds| ==> HalOk(up.hal) && !NamesSafe(View(up.hal))
    ensures served == |rounds| && PowerIn(old(nvs.hal).budget, rounds, served).None? ==> !up.faulted
    ensures served == |rounds| && !up.faulted ==>
              forall i | LastSet(Flat(log), i, name, key, value) :: Answers(value, utf8, back)
  {
    hide Steady, Recovers, NamesOk, View, NamesSafe, Named, NamesApart, Legal, Explained, RoundsServed, Flat, IsHeld,
         Answers, LastSet, NamesBounded, HeldIn;
    NamesAreBounded(nvs.namespaces, nvs.contents);
    ghost var trace;
    up, served, log, trace := ServeRounds(nvs, rounds);
    back := Err(FlashError);
    if served == |rounds| && !up.faulted {
      back := ReadAs(up, name, key, value, utf8, readSize);
      ghost var steps := Flat(log);
      HeldSame(up.namespaces, up.contents, name, key);
      forall i | LastSet(steps, i, name, key, value) ensures Answers(value, utf8, back) {
        LastInside(steps, trace, i, name, key, value);
        StillHeld(steps, trace, i, |steps|, name, key, value);
      }
    }
  }

  lemma LastInside(steps: seq<Step>, trace: seq<Contents>, i: nat, name: Key, key: Key, value: NewValue)
    requires Explained(steps, trace) && LastSet(steps, i, name, key, value)
    ensures i < |steps| && KeyRefusal(name, key).None?
  {
    hide StepOk;
    ConfirmedKey(steps[i], trace[i], trace[i + 1]);
  }

  // ---- a key that a lost namespace left behind ----

  /** Booted from flash with such a key, a short string or blob is set under any new name: the call is
      confirmed, the instance is in no state any contents describe. */
  method InheritedRun(c: Codec, ws: nat, name: Key, key: Key, value: NewValue) returns (nvs: Nvs, r: Result<Unit>)
    requires CodecOk(c) && WriteSize(ws) && !value.NewPrimitive? && SetRefusal(name, key, value).None?
    requires value.NewBlob? ==> |value.data| <= MAX_BLOB_DATA_PER_PAGE
    ensures r.Ok? && !nvs.faulted && !nvs.Valid() && HalOk(nvs.hal)
    ensures forall kv: Contents :: !Holds(nvs.hal, kv)
  {
    hide Recovers, RecoversIn, Steady, NamesOk, NamesSafe, NothingLeft, Holds, TwoHeads, InstOk, Opened, KeysKept,
         BaseOk, CutDuringSet, FlashFit, SequencesDiffer, View, Pending, NoMove, Frees, ActiveLast;
    IndexInherited(c, ws, name, key);
    var h := Orphaned(c, ws, key);
    ghost var kv: Contents := map[FullKey(1, key) := Prim(U8, Ones(8))];
    RecoversBy(h, kv, NoGc);
    RecoversFit(h, kv);
    nvs := new Nvs(h, kv);
    assert !NamesFull(kv, name);
    match value {
      case NewString(text) => r := nvs.SetStr(name, key, text);
      case NewBlob(data) =>
        assert PagesFor(|data|) <= 1;
        r := nvs.SetBlob(name, key, data);
    }
    ghost var k := FullKey(nvs.namespaces[name], key);
    if value.NewString? {
      ghost var q, rec :| Pending(nvs.hal, nvs.pages, nvs.freePages, nvs.contents, k, q, rec);
      PendingTwice(nvs.hal, nvs.pages, nvs.freePages, nvs.contents, k, q, rec);
    }
    TwiceHal(nvs.hal, k);
    forall kv2: Contents ensures !Holds(nvs.hal, kv2) { TwoHeadsUnread(nvs.hal, k, kv2); }
  }

  lemma TwiceHal(h: Hal, k: FullKey)
    requires TwoHeads(h, k)
    ensures HalOk(h)
  {}

  // ---- a page of the reserve with a stale entry map ----

  /** Booted from flash with one such page, the copy of a page onto it loses what was on the page. */
  method StaleRun(c: Codec, ws: nat, key: Key)
    returns (nvs: Nvs, r: Result<Unit>, ghost h0: Hal, ghost source: ThinPage, ghost t: ThinPage)
    requires CodecOk(c) && WriteSize(ws)
    ensures r.Ok? && HalOk(h0) && t.addr < |nvs.hal.sectors| && LocsOf(h0, source) != []
    ensures !AllSurvive(nvs.hal.codec, nvs.hal.sectors[t.addr], LocsOf(h0, source))
  {
    hide Recovers, RecoversIn, KeysKept, NamesSafe, BaseOk, View, NoMove, AllFull, Frees, Survivor, LocsOf, AllSurvive,
         Unspoilt, HeadOf, MapsKept, BlankMaps, FlashFit, SequencesDiffer, Has;
    StaleReserve(c, ws, key);
    StaleSurvives(c, ws, key);
    var h := StaleFlash(c, ws, key);
    nvs := new Nvs(h, map[]);
    h0 := nvs.hal;
    ghost var k, loc := FullKey(1, key), Loc(0, ScalarRec(c, KeyItem(key)));
    assert HeadOf(View(h0), k, 1, loc);
    PagesCount(h0, nvs.pages, nvs.freePages);
    HeadHas(View(h0), k, 1, loc);
    ghost var i, j := PageOfPlace(h0, nvs.pages, nvs.freePages, 1, loc);
    UsedSome(h0, nvs.pages, nvs.freePages, i, j);
    var page := nvs.pages[0];
    source := page;
    ghost var fr := nvs.freePages;
    assert nvs.pages == [] + [page];
    assert fr[0].addr == 1;
    assert !Unspoilt(fr[0].emap, source.used);
    nvs.pages := [];
    ghost var popped, h1;
    r, t, h1, popped := nvs.FreePage(page, page.sequence + 1);
  }

  lemma HeadHas(vs: seq<PageView>, k: FullKey, s: nat, loc: Loc)
    requires HeadOf(vs, k, s, loc)
    ensures Has(vs, s, loc)
  {}
}
