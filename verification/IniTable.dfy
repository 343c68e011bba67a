/**
 * The key table of the ini reader (src/ini.c): parallel arrays of keys, values and hashes that grow by
 * 64 and are scanned from the start. The table is proved to be a map, over any history of settings.
 */
module IniTable {
  import opened Lists

  /** A C string without its terminator, as unsigned bytes. */
  type Text = seq<bv8>

  const MINSIZE := 64

  // ----- ini_hash

  function Mix(h: bv32, b: bv8): bv32 {
    var h1 := h + (b as bv32);
    var h2 := h1 + (h1 << 10);
    h2 ^ (h2 >> 6)
  }

  function MixAll(key: Text): bv32 {
    if key == [] then 0 else Mix(MixAll(key[..|key| - 1]), key[|key| - 1])
  }

  function Finish(h: bv32): bv32 {
    var h1 := h + (h << 3);
    var h2 := h1 ^ (h1 >> 11);
    h2 + (h2 << 15)
  }

  function Hash(key: Text): bv32 { Finish(MixAll(key)) }

  method ComputeHash(key: Text) returns (hash: bv32)
    ensures hash == Hash(key)
  {
    hide Mix, Finish;
    hash := 0;
    var i := 0;
    while i < |key|
      invariant 0 <= i <= |key| && hash == MixAll(key[..i])
    {
      assert key[..i + 1][..i] == key[..i];
      hash := Mix(hash, key[i]);
      i := i + 1;
    }
    assert key[..i] == key;
    hash := Finish(hash);
  }

  // ----- the table as a map

  /** The map that the first `n` entries make, a later one overriding an earlier one. */
  function Entries(keys: seq<Text>, vals: seq<Option<Text>>): map<Text, Option<Text>>
    requires |keys| == |vals|
  {
    if keys == [] then map[]
    else
      var n := |keys| - 1;
      Entries(keys[..n], vals[..n])[keys[n] := vals[n]]
  }

  lemma {:induction false} EntriesFacts(keys: seq<Text>, vals: seq<Option<Text>>)
    requires |keys| == |vals| && NoDup(keys)
    ensures forall k :: k in Entries(keys, vals) <==> k in keys
    ensures forall i :: 0 <= i < |keys| ==> Entries(keys, vals)[keys[i]] == vals[i]
  {
    if keys != [] {
      var n := |keys| - 1;
      EntriesFacts(keys[..n], vals[..n]);
      assert keys == keys[..n] + [keys[n]];
      forall i | 0 <= i < n ensures Entries(keys, vals)[keys[i]] == vals[i] {
        assert keys[i] == keys[..n][i] && vals[i] == vals[..n][i];
      }
    }
  }

  lemma EntriesUpdate(keys: seq<Text>, vals: seq<Option<Text>>, i: nat, v: Option<Text>)
    requires |keys| == |vals| && NoDup(keys) && i < |keys|
    ensures Entries(keys, vals[i := v]) == Entries(keys, vals)[keys[i] := v]
  {
    var a, b := Entries(keys, vals[i := v]), Entries(keys, vals)[keys[i] := v];
    EntriesFacts(keys, vals);
    EntriesFacts(keys, vals[i := v]);
    assert a.Keys == b.Keys;
    forall k | k in keys ensures a[k] == b[k] {
      var j :| 0 <= j < |keys| && keys[j] == k;
      assert vals[i := v][j] == if j == i then v else vals[j];
    }
  }

  // ----- the object

  /** _extend_mem: a larger buffer, the new slots cleared. */
  method ExtendMem<T>(a: array<T>, size: nat, none: T) returns (b: array<T>)
    requires a.Length <= size
    ensures fresh(b) && b.Length == size
    ensures forall i :: 0 <= i < size ==> b[i] == if i < a.Length then a[i] else none
  {
    b := new T[size](_ => none);
    forall i | 0 <= i < a.Length { b[i] := a[i]; }
  }

  class Ini {
    var num: nat
    var size: nat
    var key: array<Option<Text>>
    var val: array<Option<Text>>
    var hash: array<bv32>

    ghost predicate Valid()
      reads this, key, hash
    {
      && key.Length == val.Length == hash.Length == size && num <= size
      && key != val && (key as object) != hash && (val as object) != hash
      && (forall i :: 0 <= i < size ==> (key[i].Some? <==> i < num))
      && (forall i :: 0 <= i < num ==> hash[i] == Hash(key[i].value))
      && NoDup(Keys())
    }

    ghost function Arrays(): set<object>
      reads this
    {
      {key, val, hash}
    }

    /** The keys in the occupied slots, which are the first `num`. */
    ghost function Keys(): (ks: seq<Text>)
      reads this, key
      requires num <= key.Length && forall i :: 0 <= i < num ==> key[i].Some?
    {
      seq(num, i requires 0 <= i < num reads this, key requires i < key.Length && key[i].Some? => key[i].value)
    }

    ghost function Contents(): map<Text, Option<Text>>
      reads this, key, val, hash
      requires Valid()
    {
      Entries(Keys(), val[..num])
    }

    constructor ()
      ensures Valid() && fresh(key) && fresh(val) && fresh(hash) && Contents() == map[]
    {
      num, size := 0, 0;
      key, val, hash := new Option<Text>[0], new Option<Text>[0], new bv32[0];
      new;
      Alloc();
    }

    /** ini_alloc: the same entries in larger arrays. */
    method Alloc()
      requires Valid()
      modifies this
      ensures Valid() && fresh(key) && fresh(val) && fresh(hash)
      ensures num == old(num) && size == old(size) + MINSIZE
      ensures Contents() == old(Contents()) && Keys() == old(Keys())
    {
      hide Hash, NoDup, Entries;
      var larger := size + MINSIZE;
      var key' := ExtendMem(key, larger, None);
      var val' := ExtendMem(val, larger, None);
      var hash' := ExtendMem(hash, larger, 0);
      ghost var ks := Keys();
      key, val, hash, size := key', val', hash', larger;
      assert Keys() == ks;
      assert val[..num] == old(val[..num]);
    }

    /** ini_find: the slot of a key; comparing hashes first hides none. */
    method Find(k: Text) returns (i: int)
      requires Valid()
      ensures k !in Contents() ==> i == -1
      ensures k in Contents() ==> 0 <= i < num && key[i] == Some(k)
    {
      hide Hash, NoDup, Entries;
      EntriesFacts(Keys(), val[..num]);
      if num <= 0 { return -1; }
      var h := ComputeHash(k);
      i := 0;
      while i < size
        invariant 0 <= i <= size && k !in Keys()[..if i < num then i else num]
      {
        if key[i].Some? {
          if h == hash[i] && k == key[i].value { return; }
          assert Keys()[i] != k;
        }
        i := i + 1;
      }
      assert Keys()[..num] == Keys();
      i := -1;
    }

    /** ini_set. */
    method Set(k: Text, v: Option<Text>)
      requires Valid()
      modifies this, key, val, hash
      ensures Valid() && fresh(Arrays() - old(Arrays()))
      ensures Contents() == old(Contents())[k := v]
      ensures num == old(num) + if k in old(Contents()) then 0 else 1
      ensures size == old(size) + if k !in old(Contents()) && old(num) == old(size) then MINSIZE else 0
    {
      hide Hash, NoDup, Entries;
      EntriesFacts(Keys(), val[..num]);
      var h := ComputeHash(k);
      var i := Find(k);
      if i >= 0 {
        Overwrite(i, v);
        return;
      }
      if num == size { Alloc(); }
      Put(k, v, h);
    }

    /** A key that is there takes the new value. */
    method Overwrite(i: nat, v: Option<Text>)
      requires Valid() && i < num
      modifies val
      ensures Valid() && Contents() == old(Contents())[old(Keys())[i] := v]
    {
      hide Hash, NoDup, Entries;
      ghost var ks, vs := Keys(), val[..num];
      val[i] := v;
      assert Keys() == ks && val[..num] == vs[i := v];
      EntriesUpdate(ks, vs, i, v);
    }

    /** Its end: the first empty slot takes the new entry. */
    method Put(k: Text, v: Option<Text>, h: bv32)
      requires Valid() && num < size && k !in Keys() && h == Hash(k)
      modifies this, key, val, hash
      ensures Valid() && key == old(key) && val == old(val) && hash == old(hash)
      ensures num == old(num) + 1 && size == old(size)
      ensures Contents() == old(Contents())[k := v]
    {
      hide Hash;
      ghost var ks, vs := Keys(), val[..num];
      var i := 0;
      while i < size && key[i].Some?
        invariant 0 <= i <= num
      {
        i := i + 1;
      }
      assert i == num;
      key[i] := Some(k);
      val[i] := v;
      hash[i] := h;
      num := num + 1;
      assert Keys() == ks + [k] && val[..num] == vs + [v];
      assert Keys()[..num - 1] == ks && val[..num][..num - 1] == vs;
    }

    /** ini_get: a missing key reads like one without a value. */
    method Get(k: Text) returns (v: Option<Text>)
      requires Valid()
      ensures v == if k in Contents() then Contents()[k] else None
    {
      hide Hash, NoDup, Entries;
      EntriesFacts(Keys(), val[..num]);
      var h := ComputeHash(k);
      var i := 0;
      while i < size
        invariant 0 <= i <= size && k !in Keys()[..if i < num then i else num]
      {
        if key[i].Some? {
          if h == hash[i] {
            if k == key[i].value {
              assert Keys()[i] == k && val[..num][i] == val[i];
              return val[i];
            }
          }
          assert Keys()[i] != k;
        }
        i := i + 1;
      }
      assert Keys()[..num] == Keys();
      v := None;
    }
  }

  // ----- a history of settings

  /** The contents after the settings of `h`, the last one of a key deciding. */
  function Replay(h: seq<(Text, Option<Text>)>): map<Text, Option<Text>> {
    if h == [] then map[] else Replay(h[..|h| - 1])[h[|h| - 1].0 := h[|h| - 1].1]
  }

  /** What is read back is the value set last. */
  lemma {:induction false} LastSettingWins(h: seq<(Text, Option<Text>)>, k: Text)
    ensures k in Replay(h) <==> exists i :: 0 <= i < |h| && h[i].0 == k
    ensures forall i :: 0 <= i < |h| && h[i].0 == k && (forall j :: i < j < |h| ==> h[j].0 != k) ==>
                        Replay(h)[k] == h[i].1
  {
    if h != [] {
      var n := |h| - 1;
      LastSettingWins(h[..n], k);
      assert forall i :: 0 <= i < n ==> h[..n][i] == h[i];
      if i :| 0 <= i < |h| && h[i].0 == k { if i < n { assert h[..n][i].0 == k; } }
      if i :| 0 <= i < |h[..n]| && h[..n][i].0 == k { assert h[i].0 == k; }
      forall i | 0 <= i < |h| && h[i].0 == k && forall j :: i < j < |h| ==> h[j].0 != k
        ensures Replay(h)[k] == h[i].1
      {
        if i < n { assert h[..n][i].0 == k; }
      }
    }
  }

  /** ini_parse_file, as to the table: a new object takes the settings of the file in order. */
  method Load(h: seq<(Text, Option<Text>)>) returns (t: Ini)
    ensures fresh(t) && fresh(t.Arrays()) && t.Valid() && t.Contents() == Replay(h)
  {
    hide Hash, NoDup, Entries;
    t := new Ini();
    var i := 0;
    while i < |h|
      invariant 0 <= i <= |h| && fresh(t) && fresh(t.Arrays())
      invariant t.Valid() && t.Contents() == Replay(h[..i])
    {
      assert h[..i + 1][..i] == h[..i];
      t.Set(h[i].0, h[i].1);
      i := i + 1;
    }
    assert h[..i] == h;
  }

  /** A key reads back the value set last, and nothing when it was never set. */
  method LoadAndGet(h: seq<(Text, Option<Text>)>, k: Text) returns (v: Option<Text>)
    ensures forall i :: 0 <= i < |h| && h[i].0 == k && (forall j :: i < j < |h| ==> h[j].0 != k) ==> v == h[i].1
    ensures (forall i :: 0 <= i < |h| ==> h[i].0 != k) ==> v == None
  {
    var t := Load(h);
    v := t.Get(k);
    LastSettingWins(h, k);
  }
}
