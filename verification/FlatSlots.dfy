/**
 * The subscriber and hook lists as they lie in memory (src/resource.c, src/component.c): one buffer of
 * 32-character slots, searched with strncmp and rebuilt with memcpy when a name goes. The operations
 * are proved to be append and remove-first on the list of names, with every copy in bounds.
 */
module FlatSlots {
  import opened Lists

  /** COMPONENT_NAME_LEN. */
  const LEN := 32

  /** Where slot `i` begins. */
  function Pos(i: nat): nat { 32 * i }

  // ----- slots and names

  /** The whole slots of a buffer. */
  ghost function Slots(d: seq<char>): (r: seq<seq<char>>)
    ensures |r| == |d| / 32
    ensures forall i :: 0 <= i < |r| ==> |r[i]| == LEN
  {
    if |d| < LEN then [] else [d[..LEN]] + Slots(d[LEN..])
  }

  /** The text of a slot: its characters before the first NUL. */
  function Decode(s: seq<char>): (t: string)
    ensures '\0' !in t && |t| <= |s| && t == s[..|t|]
    ensures |t| < |s| ==> s[|t|] == '\0'
  {
    if s == [] || s[0] == '\0' then []
    else
      var t := Decode(s[1..]);
      assert s[..|t| + 1] == [s[0]] + s[1..][..|t|];
      [s[0]] + t
  }

  ghost function Texts(slots: seq<seq<char>>): (r: seq<string>)
    ensures |r| == |slots|
    ensures forall i :: 0 <= i < |r| ==> r[i] == Decode(slots[i])
  {
    seq(|slots|, i requires 0 <= i < |slots| => Decode(slots[i]))
  }

  /** What strncmp sees of a name: at most 32 characters. */
  function Clip(name: string): string { if |name| <= LEN then name else name[..LEN] }

  lemma {:induction false} SlotsAt(d: seq<char>, i: nat)
    requires Pos(i + 1) <= |d|
    ensures Slots(d)[i] == d[Pos(i)..Pos(i + 1)]
    decreases i
  {
    if i > 0 {
      SlotsAt(d[LEN..], i - 1);
      SliceOfRest(d, LEN, Pos(i - 1), Pos(i));
    }
  }

  lemma SliceOfRest(d: seq<char>, a: nat, p: nat, q: nat)
    requires p <= q && a + q <= |d|
    ensures d[a..][p..q] == d[a + p..a + q]
  {
  }

  lemma {:induction false} SlotsJoin(a: seq<char>, b: seq<char>)
    requires |a| % 32 == 0
    ensures Slots(a + b) == Slots(a) + Slots(b)
    decreases |a|
  {
    if a == [] {
      assert a + b == b;
    } else {
      assert (a + b)[..LEN] == a[..LEN] && (a + b)[LEN..] == a[LEN..] + b;
      SlotsJoin(a[LEN..], b);
    }
  }

  lemma OneSlot(s: seq<char>)
    requires |s| == LEN
    ensures Slots(s) == [s]
  {
    assert s[..LEN] == s && s[LEN..] == [] && Slots([]) == [];
  }

  lemma CutMiddle(a: seq<char>, s: seq<char>, b: seq<char>)
    requires |a| % 32 == 0 && |s| == LEN
    ensures |a| / 32 < |Slots(a + (s + b))|
    ensures Slots(a + b) == RemoveAt(Slots(a + (s + b)), |a| / 32)
  {
    hide Slots;
    SlotsJoin(a, s + b);
    SlotsJoin(s, b);
    OneSlot(s);
    SlotsJoin(a, b);
  }

  /** Cutting slot `i` out of the buffer removes entry `i` of the list. */
  lemma SlotCut(d: seq<char>, i: nat)
    requires Pos(i + 1) <= |d|
    ensures Slots(d[..Pos(i)] + d[Pos(i + 1)..]) == RemoveAt(Slots(d), i)
  {
    hide Slots, RemoveAt;
    var p, q := Pos(i), Pos(i + 1);
    Parts(d, p, q);
    assert p == 32 * i && q == 32 * i + 32;
    assert (32 * i) % 32 == 0 && (32 * i) / 32 == i;
    CutMiddle(d[..p], d[p..q], d[q..]);
  }

  lemma Parts(d: seq<char>, p: nat, q: nat)
    requires p <= q <= |d|
    ensures d[..p] + (d[p..q] + d[q..]) == d
  {
  }

  lemma TextsCut(slots: seq<seq<char>>, i: nat)
    requires i < |slots|
    ensures Texts(RemoveAt(slots, i)) == RemoveAt(Texts(slots), i)
  {
  }

  lemma TextsAppend(slots: seq<seq<char>>, s: seq<char>)
    ensures Texts(slots + [s]) == Texts(slots) + [Decode(s)]
  {
  }

  lemma AppendSlot(d: seq<char>, s: seq<char>)
    requires |d| % 32 == 0 && |s| == LEN - 1
    ensures Texts(Slots(d + (s + ['\0']))) == Texts(Slots(d)) + [Decode(s)]
  {
    hide Slots, Decode, Texts;
    SlotsJoin(d, s + ['\0']);
    OneSlot(s + ['\0']);
    TextsAppend(Slots(d), s + ['\0']);
    DecodePadded(s);
  }

  // ----- memcpy

  method Copy(dst: array<char>, to: nat, src: array<char>, from: nat, n: nat)
    requires dst != src && to + n <= dst.Length && from + n <= src.Length
    modifies dst
    ensures dst[..] == old(dst[..to]) + src[from..from + n] + old(dst[to + n..])
  {
    var i := 0;
    while i < n
      invariant 0 <= i <= n
      invariant dst[..to] == old(dst[..to]) && dst[to + n..] == old(dst[to + n..])
      invariant dst[to..to + i] == src[from..from + i]
    {
      dst[to + i] := src[from + i];
      assert dst[to..to + i + 1] == dst[to..to + i] + [dst[to + i]];
      assert src[from..from + i + 1] == src[from..from + i] + [src[from + i]];
      i := i + 1;
    }
    assert dst[..] == dst[..to] + dst[to..to + n] + dst[to + n..];
  }

  // ----- the list in a node

  class SlotList {
    var data: array<char>
    var count: nat

    ghost predicate Valid()
      reads this
    {
      data.Length == Pos(count)
    }

    ghost function Names(): (r: seq<string>)
      reads this, data
    {
      Texts(Slots(data[..]))
    }

    constructor ()
      ensures Valid() && fresh(data) && Names() == []
    {
      data := new char[0];
      count := 0;
    }

    /** strncmp of slot `k` with a name, up to 32 characters or the end of either. */
    method SameName(k: nat, name: string) returns (same: bool)
      requires Valid() && k < count && '\0' !in name
      ensures same == (Names()[k] == Clip(name))
    {
      SlotsAt(data[..], k);
      ghost var s := Slots(data[..])[k];
      var i := 0;
      while i < LEN
        invariant 0 <= i <= LEN && i <= |name| && s[..i] == name[..i] && '\0' !in s[..i]
      {
        var c := data[Pos(k) + i];
        var d := if i < |name| then name[i] else '\0';
        assert s[i] == c;
        if c != d {
          DecodeDiffers(s, name, i);
          return false;
        }
        if c == '\0' {
          DecodeIs(s, i);
          assert name[..i] == name;
          return true;
        }
        assert s[..i + 1] == s[..i] + [s[i]] && name[..i + 1] == name[..i] + [name[i]];
        i := i + 1;
      }
      DecodeIs(s, LEN);
      same := true;
    }

    /** The search loop: the first slot with the name. */
    method Find(name: string) returns (k: nat)
      requires Valid() && '\0' !in name
      ensures k == FirstIndex(Names(), Clip(name)) <= count
    {
      hide Slots, Texts, Decode, FirstIndex;
      k := 0;
      while k < count
        invariant 0 <= k <= count
        invariant forall j :: 0 <= j < k ==> Names()[j] != Clip(name)
      {
        var same := SameName(k, name);
        if same { break; }
        k := k + 1;
      }
      FirstIndexIs(Names(), Clip(name), k);
    }

    /** realloc, memset, memcpy and the terminator: a name longer than 31 characters is cut. */
    method Append(src: array<char>, from: nat)
      requires Valid() && from + LEN <= src.Length
      modifies this
      ensures Valid() && fresh(data) && count == old(count) + 1
      ensures Names() == old(Names()) + [Decode(src[from..from + LEN - 1])]
    {
      hide Slots, Texts, Decode;
      var tmp := new char[Pos(count + 1)](_ => '\0');
      Copy(tmp, 0, data, 0, Pos(count));
      assert tmp[..Pos(count)] == data[..];
      Copy(tmp, Pos(count), src, from, LEN);
      assert tmp[..] == data[..] + src[from..from + LEN];
      tmp[Pos(count + 1) - 1] := '\0';
      ghost var slot := src[from..from + LEN - 1] + ['\0'];
      assert tmp[..] == data[..] + slot;
      AppendSlot(data[..], src[from..from + LEN - 1]);
      data := tmp;
      count := count + 1;
    }

    /** The copies that leave slot `index` out, with their three cases. */
    method Cut(index: nat) returns (tmp: array<char>)
      requires Valid() && index < count
      ensures fresh(tmp) && tmp.Length == Pos(count - 1)
      ensures Slots(tmp[..]) == RemoveAt(Slots(data[..]), index)
    {
      hide Slots, RemoveAt;
      var left := count - 1;
      tmp := new char[Pos(left)](_ => '\0');
      if index == 0 {
        Copy(tmp, 0, data, LEN, Pos(left));
      } else if index == left + 1 {
        assert false;
      } else {
        Copy(tmp, 0, data, 0, Pos(index));
        assert tmp[..Pos(index)] == data[..Pos(index)];
        Copy(tmp, Pos(index), data, Pos(index + 1), Pos(left - index));
      }
      assert tmp[..] == data[..Pos(index)] + data[Pos(index + 1)..];
      SlotCut(data[..], index);
    }

    /** Removal by name. With a single slot or none the owner drops the node, whatever the name. */
    method Remove(name: string) returns (dropNode: bool)
      requires Valid() && '\0' !in name
      modifies this
      ensures Valid() && dropNode == (old(count) <= 1)
      ensures Names() == if dropNode then old(Names()) else RemoveFirst(old(Names()), Clip(name))
    {
      dropNode := count <= 1;
      if dropNode { return; }
      var k := Find(name);
      if k == count { return; }
      TextsCut(Slots(data[..]), k);
      data := Cut(k);
      count := count - 1;
    }
  }

  // ----- strncmp and decoding

  lemma DecodeIs(s: seq<char>, n: nat)
    requires n <= |s| && '\0' !in s[..n] && (n < |s| ==> s[n] == '\0')
    ensures Decode(s) == s[..n]
  {
  }

  lemma DecodeDiffers(s: seq<char>, name: string, i: nat)
    requires i < |s| == LEN && i <= |name| && s[..i] == name[..i] && '\0' !in s[..i] && '\0' !in name
    requires s[i] != if i < |name| then name[i] else '\0'
    ensures Decode(s) != Clip(name)
  {
    assert i < |Clip(name)| ==> Clip(name)[i] == name[i];
  }

  lemma DecodePadded(s: seq<char>)
    ensures Decode(s + ['\0']) == Decode(s)
  {
    var n := |Decode(s)|;
    assert (s + ['\0'])[..n] == s[..n];
    DecodeIs(s + ['\0'], n);
  }
}
