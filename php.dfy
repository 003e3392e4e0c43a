// PHP values as the driver sees them: what json_decode($body, true) yields
// (floats aside), with PHP's ordered arrays, truthiness, key lookup,
// assignment, `$a[] = v` and string conversion.

module Wrappers {
  datatype Option<+T> = None | Some(value: T)

  datatype Result<+T, +E> = Success(value: T) | Failure(error: E)
}

module Php {

  /** An array key after PHP's normalisation: an integer or a string. */
  datatype Key = IntKey(n: int) | StrKey(s: string)

  /** A decoded JSON value; a JSON object or list is an ordered PHP array. */
  datatype Json =
    | Null
    | Bool(b: bool)
    | Int(i: int)
    | Str(s: string)
    | Arr(entries: seq<Entry>)

  /** One `key => value` slot of a PHP array. */
  datatype Entry = Entry(key: Key, val: Json)

  /** A PHP array: slots in insertion order. */
  type PhpArray = seq<Entry>

  /** String keys are written as in PHP source: K("text") is 'text'. */
  function K(s: string): Key { StrKey(s) }

  /** PHP's conversion to bool, as used by `if ($x)`, `&&` and `||`: false for exactly the six falsy values. */
  predicate Truthy(v: Json)
    ensures Truthy(v) <==> v !in Falsy
  {
    match v
    case Null => false
    case Bool(b) => b
    case Int(i) => i != 0
    case Str(s) => s != "" && s != "0"
    case Arr(es) => es != []
  }

  /** PHP's empty(): exactly the values that convert to false. */
  predicate Empty(v: Json)
  {
    !Truthy(v)
  }

  /** The six values PHP converts to false. */
  const Falsy: set<Json> := {Null, Bool(false), Int(0), Str(""), Str("0"), Arr([])}

  /** No key occurs twice: every PHP array has this shape. */
  predicate UniqueKeys(a: PhpArray)
  {
    forall i, j :: 0 <= i < j < |a| ==> a[i].key != a[j].key
  }

  /** The position of the slot holding key k, or |a| when there is none. */
  function Find(a: PhpArray, k: Key): (r: nat)
    ensures r <= |a|
    ensures r < |a| ==> a[r].key == k
    ensures forall j :: 0 <= j < r ==> a[j].key != k
  {
    if a == [] then 0
    else if a[0].key == k then 0
    else 1 + Find(a[1..], k)
  }

  /** array_key_exists(k, a). */
  predicate HasKey(a: PhpArray, k: Key)
  {
    Find(a, k) < |a|
  }

  /** `$a[k] ?? null`: ParameterBag::get and Collection::get with their default null. */
  function Get(a: PhpArray, k: Key): Json
  {
    var i := Find(a, k);
    if i < |a| then a[i].val else Null
  }

  /** The lookup of k depends only on which slots hold k. */
  lemma FindSameKeys(a: PhpArray, b: PhpArray, k: Key)
    requires |a| == |b|
    requires forall j :: 0 <= j < |a| ==> (a[j].key == k <==> b[j].key == k)
    ensures Find(a, k) == Find(b, k)
  {
  }

  /** Looking a key up after a slot has been added at the end. */
  lemma FindAppend(a: PhpArray, e: Entry, k: Key)
    ensures Find(a + [e], k) == if HasKey(a, k) then Find(a, k) else if e.key == k then |a| else |a| + 1
  {
    var b := a + [e];
    assert forall j :: 0 <= j < |a| ==> b[j] == a[j];
    if e.key == k { assert b[|a|].key == k; }
  }

  /** The position of k in a concatenation: the front part wins. */
  lemma {:induction false} FindConcatIndex(a: PhpArray, b: PhpArray, k: Key)
    ensures Find(a + b, k) == if HasKey(a, k) then Find(a, k) else |a| + Find(b, k)
  {
    if a == [] {
      assert a + b == b;
    } else {
      assert (a + b)[1..] == a[1..] + b;
      FindConcatIndex(a[1..], b, k);
    }
  }

  /** Looking a key up in a concatenation: the front part wins. */
  lemma FindConcat(a: PhpArray, b: PhpArray, k: Key)
    ensures Find(a + b, k) == if HasKey(a, k) then Find(a, k) else |a| + Find(b, k)
    ensures HasKey(a + b, k) <==> HasKey(a, k) || HasKey(b, k)
    ensures Get(a + b, k) == if HasKey(a, k) then Get(a, k) else Get(b, k)
  {
    FindConcatIndex(a, b, k);
    var i := Find(a + b, k);
    if HasKey(a, k) {
      assert (a + b)[i] == a[i];
    } else if HasKey(b, k) {
      assert (a + b)[i] == b[i - |a|];
    }
  }

  /** Appending a slot keyed other than k leaves the lookup of k alone. */
  lemma GetAppendOther(a: PhpArray, e: Entry, k: Key)
    requires e.key != k
    ensures HasKey(a + [e], k) == HasKey(a, k)
    ensures Get(a + [e], k) == Get(a, k)
  {
    FindAppend(a, e, k);
    if HasKey(a, k) {
      assert (a + [e])[Find(a, k)] == a[Find(a, k)];
    }
  }

  /** `$a[k] = v`: overwrite the slot in place, or add it at the end. */
  function Set(a: PhpArray, k: Key, v: Json): (r: PhpArray)
    ensures HasKey(r, k) && Get(r, k) == v
    ensures |r| == if HasKey(a, k) then |a| else |a| + 1
    ensures forall j :: 0 <= j < |a| && j != Find(a, k) ==> r[j] == a[j]
    ensures UniqueKeys(a) ==> UniqueKeys(r)
  {
    var i := Find(a, k);
    if i < |a| then
      var r := a[i := Entry(k, v)];
      FindSameKeys(a, r, k);
      r
    else
      var r := a + [Entry(k, v)];
      FindAppend(a, Entry(k, v), k);
      assert r[|a|].key == k;
      r
  }

  /** Setting k does not disturb any other key. */
  lemma SetOther(a: PhpArray, k: Key, v: Json, k': Key)
    requires k' != k
    ensures HasKey(Set(a, k, v), k') == HasKey(a, k')
    ensures Get(Set(a, k, v), k') == Get(a, k')
  {
    var i := Find(a, k);
    if i < |a| {
      FindSameKeys(a, Set(a, k, v), k');
    } else {
      GetAppendOther(a, Entry(k, v), k');
    }
  }

  /** The key `$a[] = v` uses: one past the largest integer key, and never below 0. */
  function NextIndex(a: PhpArray): (r: nat)
  {
    if a == [] then 0
    else
      var rest := NextIndex(a[..|a| - 1]);
      var last := a[|a| - 1];
      if last.key.IntKey? && last.key.n + 1 > rest then last.key.n + 1 else rest
  }

  /** NextIndex is above every integer key, and is 0 or one past an integer key that is there. */
  lemma {:induction false} NextIndexBounds(a: PhpArray)
    ensures forall j :: 0 <= j < |a| && a[j].key.IntKey? ==> a[j].key.n < NextIndex(a)
    ensures NextIndex(a) == 0 || exists j :: 0 <= j < |a| && a[j].key == IntKey(NextIndex(a) - 1)
  {
    if a != [] {
      var init := a[..|a| - 1];
      NextIndexBounds(init);
      assert forall j :: 0 <= j < |init| ==> a[j] == init[j];
    }
  }

  /** `$a[] = v`. */
  function Append(a: PhpArray, v: Json): (r: PhpArray)
    ensures |r| == |a| + 1 && r[..|a|] == a
    ensures !HasKey(a, IntKey(NextIndex(a)))
    ensures r[|a|] == Entry(IntKey(NextIndex(a)), v)
    ensures NextIndex(r) == NextIndex(a) + 1
    ensures UniqueKeys(a) ==> UniqueKeys(r)
  {
    var r := a + [Entry(IntKey(NextIndex(a)), v)];
    NextIndexBounds(a);
    assert r[..|r| - 1] == a;
    r
  }

  /** Appending never touches a string key. */
  lemma AppendKeepsStrKeys(a: PhpArray, v: Json, k: Key)
    requires k.StrKey?
    ensures HasKey(Append(a, v), k) == HasKey(a, k)
    ensures Get(Append(a, v), k) == Get(a, k)
  {
  }

  /** The `(array)` cast, which is also what Collection::make does with a non-array. */
  function ArrayCast(v: Json): PhpArray
  {
    match v
    case Null => []
    case Arr(es) => es
    case _ => [Entry(IntKey(0), v)]
  }

  /** Decimal notation of an integer, as PHP prints it. */
  function IntToString(n: int): (r: string)
    ensures |r| > 0
    ensures forall c :: c in r ==> c == '-' || '0' <= c <= '9'
  {
    if n < 0 then "-" + NatToString(-n) else NatToString(n)
  }

  function NatToString(n: nat): (r: string)
    ensures |r| > 0
    ensures forall c :: c in r ==> '0' <= c <= '9'
  {
    var d := ['0' + (n % 10) as char];
    if n < 10 then d else NatToString(n / 10) + d
  }

  /** PHP's string conversion, as done by the `.` operator. */
  function ToPhpString(v: Json): string
  {
    match v
    case Null => ""
    case Bool(b) => if b then "1" else ""
    case Int(i) => IntToString(i)
    case Str(s) => s
    case Arr(_) => "Array"
  }
}
