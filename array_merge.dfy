// PHP's array_merge_recursive($a, $b), which the driver uses to put the
// caller's extra parameters over its defaults, and array_merge($a, $b), the
// non-recursive merge the corrected definitions use.
//
// array_merge_recursive copies $a, renumbering its integer keys, then folds
// in $b slot by slot: an integer-keyed slot is appended with the next free
// index; a string key new to the result is added at the end; a string key
// already present turns the present value into an array (a non-array x
// becomes [x]) and then either merges $b's array into it, recursively, or
// appends $b's non-array value to it.

module ArrayFunctions {
  import opened Php

  /** The array a colliding slot is turned into: an array stays, any other x (null too) becomes [x]. */
  function AsList(v: Json): PhpArray
  {
    match v
    case Arr(es) => es
    case _ => [Entry(IntKey(0), v)]
  }

  /** The value of a string key present in the result so far (d) and in the source (s). */
  function Collide(d: Json, s: Json): (r: Json)
    ensures r.Arr?
    decreases s, 1, 0
  {
    match s
    case Arr(inner) => Arr(MergeFrom(AsList(d), inner, 0))
    case _ => Arr(Append(AsList(d), s))
  }

  /** Folds one source slot into dest. */
  function MergeSlot(dest: PhpArray, e: Entry): (r: PhpArray)
    ensures UniqueKeys(dest) ==> UniqueKeys(r)
    ensures |dest| <= |r| <= |dest| + 1
    decreases e.val, 2, 0
  {
    match e.key
    case IntKey(_) => Append(dest, e.val)
    case StrKey(_) =>
      Set(dest, e.key, if HasKey(dest, e.key) then Collide(Get(dest, e.key), e.val) else e.val)
  }

  /** Folds src[i..] into dest, as php_array_merge_recursive does. */
  function MergeFrom(dest: PhpArray, src: PhpArray, i: nat): (r: PhpArray)
    requires i <= |src|
    ensures UniqueKeys(dest) ==> UniqueKeys(r)
    ensures |dest| <= |r| <= |dest| + |src| - i
    decreases Arr(src), 0, |src| - i
  {
    if i == |src| then dest else MergeFrom(MergeSlot(dest, src[i]), src, i + 1)
  }

  /** The slot e with its integer key, if it has one, replaced by n. */
  function Renumbered(e: Entry, n: int): Entry
  {
    if e.key.IntKey? then Entry(IntKey(n), e.val) else e
  }

  /** The number of integer-keyed slots among a[i], ..., a[j - 1]. */
  function IntCount(a: PhpArray, i: nat, j: nat): nat
    requires i <= j <= |a|
    decreases j - i
  {
    if i == j then 0 else (if a[i].key.IntKey? then 1 else 0) + IntCount(a, i + 1, j)
  }

  /** dest with e copied onto its end: a string key kept, an integer key replaced by the next free index. */
  function CopySlot(dest: PhpArray, e: Entry): (r: PhpArray)
    ensures |r| == |dest| + 1
  {
    dest + [Renumbered(e, NextIndex(dest))]
  }

  /** Copying an integer-keyed slot moves the next free index on by one; a string-keyed one leaves it. */
  lemma CopySlotNextIndex(dest: PhpArray, e: Entry)
    ensures NextIndex(CopySlot(dest, e)) == NextIndex(dest) + (if e.key.IntKey? then 1 else 0)
  {
  }

  /** Copies a[i..] onto the end of dest, slot by slot. */
  function CopyFrom(dest: PhpArray, a: PhpArray, i: nat): (r: PhpArray)
    requires i <= |a|
    ensures |r| == |dest| + |a| - i
    decreases |a| - i
  {
    if i == |a| then dest else CopyFrom(CopySlot(dest, a[i]), a, i + 1)
  }

  /** Copying onto dest leaves dest's own slots alone. */
  lemma {:induction false} CopyFromKeeps(dest: PhpArray, a: PhpArray, i: nat, p: nat)
    requires i <= |a| && p < |dest|
    ensures CopyFrom(dest, a, i)[p] == dest[p]
    decreases |a| - i
  {
    if i < |a| {
      var dest' := CopySlot(dest, a[i]);
      assert dest'[p] == dest[p] by {
        assert dest'[..|dest|][p] == dest'[p];
      }
      CopyFromKeeps(dest', a, i + 1, p);
    }
  }

  /** The first slot copied: a[i] renumbered from NextIndex(dest). */
  lemma CopyFromFirst(dest: PhpArray, a: PhpArray, i: nat)
    requires i < |a|
    ensures CopyFrom(dest, a, i)[|dest|] == Renumbered(a[i], NextIndex(dest))
  {
    var dest' := CopySlot(dest, a[i]);
    CopyFromKeeps(dest', a, i + 1, |dest|);
  }

  /** The slot that a[j] becomes when CopyFrom(dest, a, i) copies it. */
  lemma {:induction false} CopyFromAt(dest: PhpArray, a: PhpArray, i: nat, j: nat)
    requires i <= j < |a|
    ensures CopyFrom(dest, a, i)[|dest| + j - i] == Renumbered(a[j], NextIndex(dest) + IntCount(a, i, j))
    decreases |a| - i
  {
    if j == i {
      CopyFromFirst(dest, a, i);
    } else {
      var dest' := CopySlot(dest, a[i]);
      CopySlotNextIndex(dest, a[i]);
      assert CopyFrom(dest, a, i) == CopyFrom(dest', a, i + 1);
      CopyFromAt(dest', a, i + 1, j);
    }
  }

  /** How array_merge and array_merge_recursive copy their first argument. */
  function Renumber(a: PhpArray): (r: PhpArray)
    ensures |r| == |a|
  {
    CopyFrom([], a, 0)
  }

  /** Renumbering gives the j-th integer-keyed slot the key j and keeps every other slot. */
  lemma RenumberAt(a: PhpArray, j: nat)
    requires j < |a|
    ensures Renumber(a)[j] == Renumbered(a[j], IntCount(a, 0, j))
  {
    CopyFromAt([], a, 0, j);
  }

  /** RenumberAt for all slots at once. */
  lemma RenumberSlots(a: PhpArray)
    ensures forall j :: 0 <= j < |a| ==> Renumber(a)[j] == Renumbered(a[j], IntCount(a, 0, j))
  {
    forall j | 0 <= j < |a|
      ensures Renumber(a)[j] == Renumbered(a[j], IntCount(a, 0, j))
    {
      RenumberAt(a, j);
    }
  }

  /** array_merge_recursive($a, $b). */
  function ArrayMergeRecursive(a: PhpArray, b: PhpArray): (r: PhpArray)
    ensures |a| <= |r| <= |a| + |b|
  {
    MergeFrom(Renumber(a), b, 0)
  }

  /** Renumbering keeps every string key where it was, with its value. */
  lemma RenumberKeepsStrKeys(a: PhpArray, k: Key)
    requires k.StrKey?
    ensures HasKey(Renumber(a), k) == HasKey(a, k)
    ensures Get(Renumber(a), k) == Get(a, k)
  {
    RenumberSlots(a);
    FindSameKeys(a, Renumber(a), k);
  }

  /** The slots a[i..] hold key k in a slot of their own, or not at all. */
  lemma FindSuffix(a: PhpArray, i: nat, k: Key)
    requires i < |a|
    ensures HasKey(a[i..], k) <==> a[i].key == k || HasKey(a[i + 1..], k)
    ensures a[i].key != k ==> Get(a[i..], k) == Get(a[i + 1..], k)
    ensures a[i].key == k ==> Get(a[i..], k) == a[i].val
  {
  }

  /** In an array without repeated keys, a key found at slot i is not found after it. */
  lemma UniqueSuffix(a: PhpArray, i: nat)
    requires UniqueKeys(a) && i < |a|
    ensures !HasKey(a[i + 1..], a[i].key)
  {
  }

  /**
   * The collision rule, for one string key k: folding src[i..] into dest
   * leaves k as dest had it when src[i..] lacks it, takes src's value when
   * dest lacks it, and otherwise combines the two by Collide.
   */
  lemma {:induction false} MergeFromStrKey(dest: PhpArray, src: PhpArray, i: nat, k: Key)
    requires i <= |src| && UniqueKeys(src) && k.StrKey?
    ensures HasKey(MergeFrom(dest, src, i), k) <==> HasKey(dest, k) || HasKey(src[i..], k)
    ensures Get(MergeFrom(dest, src, i), k) ==
      if !HasKey(src[i..], k) then Get(dest, k)
      else if !HasKey(dest, k) then Get(src[i..], k)
      else Collide(Get(dest, k), Get(src[i..], k))
    decreases |src| - i
  {
    if i < |src| {
      var e := src[i];
      var dest' := MergeSlot(dest, e);
      FindSuffix(src, i, k);
      MergeFromStrKey(dest', src, i + 1, k);
      if e.key == k {
        UniqueSuffix(src, i);
      } else if e.key.IntKey? {
        AppendKeepsStrKeys(dest, e.val, k);
      } else {
        SetOther(dest, e.key, if HasKey(dest, e.key) then Collide(Get(dest, e.key), e.val) else e.val, k);
      }
    }
  }

  /** array_merge_recursive on one string key, for arrays as PHP builds them. */
  lemma ArrayMergeRecursiveStrKey(a: PhpArray, b: PhpArray, k: Key)
    requires UniqueKeys(b) && k.StrKey?
    ensures HasKey(ArrayMergeRecursive(a, b), k) <==> HasKey(a, k) || HasKey(b, k)
    ensures Get(ArrayMergeRecursive(a, b), k) ==
      if !HasKey(b, k) then Get(a, k)
      else if !HasKey(a, k) then Get(b, k)
      else Collide(Get(a, k), Get(b, k))
  {
    RenumberKeepsStrKeys(a, k);
    MergeFromStrKey(Renumber(a), b, 0, k);
    assert b[0..] == b;
  }

  /** Two non-array values under one string key end up as the list [d, s]. */
  lemma CollideScalars(d: Json, s: Json)
    requires !d.Arr? && !s.Arr?
    ensures Collide(d, s) == Arr([Entry(IntKey(0), d), Entry(IntKey(1), s)])
  {
    assert NextIndex([Entry(IntKey(0), d)]) == 1 by {
      assert [Entry(IntKey(0), d)][..0] == [];
    }
  }

  /** When src brings no string key that dest already has, merging is plain copying. */
  lemma {:induction false} MergeWithoutCollision(dest: PhpArray, src: PhpArray, i: nat)
    requires i <= |src| && UniqueKeys(src)
    requires forall j :: i <= j < |src| && src[j].key.StrKey? ==> !HasKey(dest, src[j].key)
    ensures MergeFrom(dest, src, i) == CopyFrom(dest, src, i)
    decreases |src| - i
  {
    if i < |src| {
      var e := src[i];
      var dest' := MergeSlot(dest, e);
      forall j | i + 1 <= j < |src| && src[j].key.StrKey?
        ensures !HasKey(dest', src[j].key)
      {
        if e.key.IntKey? {
          AppendKeepsStrKeys(dest, e.val, src[j].key);
        } else {
          GetAppendOther(dest, e, src[j].key);
        }
      }
      MergeWithoutCollision(dest', src, i + 1);
    }
  }

  /** Slots with string keys in front of an array do not change its next free index. */
  lemma NextIndexAfterStrKeys(d: PhpArray, x: PhpArray)
    requires forall j :: 0 <= j < |d| ==> d[j].key.StrKey?
    ensures NextIndex(d + x) == NextIndex(x)
  {
    var p, q := NextIndex(d + x), NextIndex(x);
    NextIndexBounds(d + x);
    NextIndexBounds(x);
    assert forall j :: 0 <= j < |x| ==> (d + x)[|d| + j] == x[j];
    if q > 0 {
      var j :| 0 <= j < |x| && x[j].key == IntKey(q - 1);
      assert (d + x)[|d| + j].key == IntKey(q - 1);
    }
    if p > 0 {
      var j :| 0 <= j < |d + x| && (d + x)[j].key == IntKey(p - 1);
      assert x[j - |d|].key == IntKey(p - 1);
    }
  }

  /** Copying one slot behind string-keyed slots d is copying it onto what follows d. */
  lemma CopySlotBehindStrKeys(d: PhpArray, x: PhpArray, e: Entry)
    requires forall j :: 0 <= j < |d| ==> d[j].key.StrKey?
    ensures CopySlot(d + x, e) == d + CopySlot(x, e)
  {
    NextIndexAfterStrKeys(d, x);
    var s := [Renumbered(e, NextIndex(x))];
    assert d + x + s == d + (x + s);
  }

  /** Copying onto an array is copying onto its tail when its head holds only string keys. */
  lemma {:induction false} CopyBehindStrKeys(d: PhpArray, x: PhpArray, a: PhpArray, i: nat)
    requires i <= |a|
    requires forall j :: 0 <= j < |d| ==> d[j].key.StrKey?
    ensures CopyFrom(d + x, a, i) == d + CopyFrom(x, a, i)
    decreases |a| - i
  {
    if i < |a| {
      var e := a[i];
      CopySlotBehindStrKeys(d, x, e);
      CopyBehindStrKeys(d, CopySlot(x, e), a, i + 1);
      calc {
        CopyFrom(d + x, a, i);
        CopyFrom(CopySlot(d + x, e), a, i + 1);
        CopyFrom(d + CopySlot(x, e), a, i + 1);
        d + CopyFrom(CopySlot(x, e), a, i + 1);
        d + CopyFrom(x, a, i);
      }
    }
  }

  /**
   * Merging b under one default string-keyed slot that b does not mention
   * yields the default followed by b, b's integer keys renumbered from 0.
   */
  lemma MergeUnderDefault(k: Key, v: Json, b: PhpArray)
    requires k.StrKey? && UniqueKeys(b) && !HasKey(b, k)
    ensures ArrayMergeRecursive([Entry(k, v)], b) == [Entry(k, v)] + Renumber(b)
  {
    var d := [Entry(k, v)];
    assert Renumber(d) == d by {
      assert CopySlot([], d[0]) == d;
      assert CopyFrom([], d, 0) == CopyFrom(d, d, 1);
    }
    forall j | 0 <= j < |b| && b[j].key.StrKey?
      ensures !HasKey(d, b[j].key)
    {
      assert b[j].key != k;
    }
    MergeWithoutCollision(d, b, 0);
    assert d + [] == d;
    CopyBehindStrKeys(d, [], b, 0);
  }

  /** Folds src[i..] into dest as array_merge does: a later string key overwrites in place. */
  function OverwriteFrom(dest: PhpArray, src: PhpArray, i: nat): (r: PhpArray)
    requires i <= |src|
    ensures UniqueKeys(dest) ==> UniqueKeys(r)
    ensures |dest| <= |r| <= |dest| + |src| - i
    decreases |src| - i
  {
    if i == |src| then dest
    else
      var e := src[i];
      OverwriteFrom(if e.key.IntKey? then Append(dest, e.val) else Set(dest, e.key, e.val), src, i + 1)
  }

  /** array_merge($a, $b). */
  function ArrayMerge(a: PhpArray, b: PhpArray): (r: PhpArray)
    ensures |a| <= |r| <= |a| + |b|
  {
    OverwriteFrom(Renumber(a), b, 0)
  }

  lemma {:induction false} OverwriteFromStrKey(dest: PhpArray, src: PhpArray, i: nat, k: Key)
    requires i <= |src| && UniqueKeys(src) && k.StrKey?
    ensures HasKey(OverwriteFrom(dest, src, i), k) <==> HasKey(dest, k) || HasKey(src[i..], k)
    ensures Get(OverwriteFrom(dest, src, i), k) == if HasKey(src[i..], k) then Get(src[i..], k) else Get(dest, k)
    decreases |src| - i
  {
    if i < |src| {
      var e := src[i];
      var dest' := if e.key.IntKey? then Append(dest, e.val) else Set(dest, e.key, e.val);
      FindSuffix(src, i, k);
      OverwriteFromStrKey(dest', src, i + 1, k);
      if e.key == k {
        UniqueSuffix(src, i);
      } else if e.key.IntKey? {
        AppendKeepsStrKeys(dest, e.val, k);
      } else {
        SetOther(dest, e.key, e.val, k);
      }
    }
  }

  /** When src brings no string key that dest already has, array_merge's fold is plain copying too. */
  lemma {:induction false} OverwriteWithoutCollision(dest: PhpArray, src: PhpArray, i: nat)
    requires i <= |src| && UniqueKeys(src)
    requires forall j :: i <= j < |src| && src[j].key.StrKey? ==> !HasKey(dest, src[j].key)
    ensures OverwriteFrom(dest, src, i) == CopyFrom(dest, src, i)
    decreases |src| - i
  {
    if i < |src| {
      var e := src[i];
      var dest' := CopySlot(dest, e);
      assert !e.key.IntKey? ==> Set(dest, e.key, e.val) == dest';
      forall j | i + 1 <= j < |src| && src[j].key.StrKey?
        ensures !HasKey(dest', src[j].key)
      {
        if e.key.IntKey? {
          AppendKeepsStrKeys(dest, e.val, src[j].key);
        } else {
          GetAppendOther(dest, e, src[j].key);
        }
      }
      OverwriteWithoutCollision(dest', src, i + 1);
    }
  }

  /** array_merge and array_merge_recursive agree when b repeats no string key of a. */
  lemma MergesAgreeWithoutCollision(a: PhpArray, b: PhpArray)
    requires UniqueKeys(b)
    requires forall j :: 0 <= j < |b| && b[j].key.StrKey? ==> !HasKey(a, b[j].key)
    ensures ArrayMerge(a, b) == ArrayMergeRecursive(a, b)
  {
    forall j | 0 <= j < |b| && b[j].key.StrKey?
      ensures !HasKey(Renumber(a), b[j].key)
    {
      RenumberKeepsStrKeys(a, b[j].key);
    }
    MergeWithoutCollision(Renumber(a), b, 0);
    OverwriteWithoutCollision(Renumber(a), b, 0);
  }

  /** array_merge on one string key: b's value wins whenever b has the key. */
  lemma ArrayMergeStrKey(a: PhpArray, b: PhpArray, k: Key)
    requires UniqueKeys(b) && k.StrKey?
    ensures HasKey(ArrayMerge(a, b), k) <==> HasKey(a, k) || HasKey(b, k)
    ensures Get(ArrayMerge(a, b), k) == if HasKey(b, k) then Get(b, k) else Get(a, k)
  {
    RenumberKeepsStrKeys(a, k);
    OverwriteFromStrKey(Renumber(a), b, 0, k);
    assert b[0..] == b;
  }
}
