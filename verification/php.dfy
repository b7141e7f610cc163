/**
 * PHP values as the filter builder sees them: null, strings and ordered
 * arrays (PHP's ordered hash maps), together with the few built-ins the
 * builder relies on: key lookup under `isset`, `unset`, the boolean cast
 * used by loose `==` against a bool, and `strtolower`.
 */
module Php {
  import opened Wrappers

  /** An array key: PHP keys are strings or integers. */
  datatype Key = Name(name: string) | Index(index: int)

  datatype Value = Null | Str(text: string) | Array(entries: seq<Entry>)

  /** One key/value pair of an array, in insertion order. */
  datatype Entry = Entry(key: Key, val: Value)

  /** A size measure for termination: every element is smaller than its array. */
  function SizeOf(v: Value): nat
    decreases v
  {
    match v
    case Array(es) => 1 + SizeOfEntries(es)
    case _ => 1
  }

  function SizeOfEntries(es: seq<Entry>): nat
    decreases es
  {
    if es == [] then 0
    else
      var last := es[|es| - 1];
      assert last in es;
      assert last.val < last;
      SizeOfEntries(es[..|es| - 1]) + 1 + SizeOf(last.val)
  }

  lemma {:induction false} SizeOfCons(e: Entry, es: seq<Entry>)
    ensures SizeOfEntries([e] + es) == 1 + SizeOf(e.val) + SizeOfEntries(es)
    decreases |es|
  {
    if es != [] {
      var n := |es|;
      assert ([e] + es)[..n] == [e] + es[..n - 1];
      SizeOfCons(e, es[..n - 1]);
    }
  }

  /** Every value stored in an array is smaller than the array's entries taken together. */
  lemma {:induction false} EntrySmaller(es: seq<Entry>, i: int)
    requires 0 <= i < |es|
    ensures SizeOf(es[i].val) < SizeOfEntries(es)
    decreases |es|
  {
    if i < |es| - 1 {
      EntrySmaller(es[..|es| - 1], i);
    }
  }

  /** The entries of an array; a scalar or null is read as an array with no entries. */
  function EntriesOf(v: Value): seq<Entry>
  {
    if v.Array? then v.entries else []
  }

  /** `$a[$k]` for a string key: the value of the first entry whose key is `k`. */
  function Get(es: seq<Entry>, k: string): Option<Value>
  {
    if es == [] then None
    else if es[0].key == Name(k) then Some(es[0].val)
    else Get(es[1..], k)
  }

  /** The lookup finds the first entry under the key, and nothing when no entry has it. */
  lemma {:induction false} GetFindsFirstEntry(es: seq<Entry>, k: string)
    ensures Get(es, k).None? <==> forall i :: 0 <= i < |es| ==> es[i].key != Name(k)
    ensures Get(es, k).Some? ==>
      exists i :: 0 <= i < |es| && es[i].key == Name(k) && es[i].val == Get(es, k).value &&
        forall h :: 0 <= h < i ==> es[h].key != Name(k)
  {
    if es != [] && es[0].key != Name(k) {
      GetFindsFirstEntry(es[1..], k);
      if Get(es, k).Some? {
        var i :| 0 <= i < |es[1..]| && es[1..][i].key == Name(k) && es[1..][i].val == Get(es, k).value &&
          forall h :: 0 <= h < i ==> es[1..][h].key != Name(k);
        assert es[i + 1].key == Name(k) && forall h :: 0 <= h < i + 1 ==> es[h].key != Name(k);
      }
    }
  }

  /** Lookup in a two-entry array, spelled out. */
  lemma {:induction false} GetInPair(e0: Entry, e1: Entry, k: string)
    ensures Get([e0, e1], k) ==
      if e0.key == Name(k) then Some(e0.val) else if e1.key == Name(k) then Some(e1.val) else None
  {
    assert [e1][1..] == [];
    assert Get([e1], k) == if e1.key == Name(k) then Some(e1.val) else None;
    assert [e0, e1][1..] == [e1];
  }

  /** Lookup in a three-entry array, spelled out. */
  lemma {:induction false} GetInTriple(e0: Entry, e1: Entry, e2: Entry, k: string)
    ensures Get([e0, e1, e2], k) ==
      if e0.key == Name(k) then Some(e0.val) else Get([e1, e2], k)
  {
    assert [e0, e1, e2][1..] == [e1, e2];
  }

  /** `isset($a[$k])` holds when the key is present and its value is not null. */
  function Isset(es: seq<Entry>, k: string): (r: Option<Value>)
    ensures r.Some? <==> Get(es, k).Some? && Get(es, k).value != Null
    ensures r.Some? ==> Get(es, k) == r
  {
    match Get(es, k)
    case Some(v) => if v == Null then None else Some(v)
    case None => None
  }

  /** `isset($a[$k]) ? $a[$k] : $default` */
  function IssetOr(es: seq<Entry>, k: string, default: Value): (r: Value)
    ensures Isset(es, k).Some? ==> r == Get(es, k).value && r != Null
    ensures Isset(es, k).None? ==> r == default
  {
    match Isset(es, k)
    case Some(v) => v
    case None => default
  }

  /** `unset($a[$k])`: drops the key, keeps every other entry in order. */
  function Unset(es: seq<Entry>, k: string): (r: seq<Entry>)
  {
    if es == [] then []
    else
      var rest := Unset(es[1..], k);
      if es[0].key == Name(k) then rest else [es[0]] + rest
  }

  /** After `unset`, the key is absent and every other key looks up as before. */
  lemma {:induction false} UnsetLookup(es: seq<Entry>, k: string)
    ensures Get(Unset(es, k), k) == None
    ensures forall j :: j != k ==> Get(Unset(es, k), j) == Get(es, j)
  {
    if es != [] {
      UnsetLookup(es[1..], k);
      if es[0].key != Name(k) {
        var r := Unset(es, k);
        assert r[0] == es[0] && r[1..] == Unset(es[1..], k);
      }
    }
  }

  /** `unset` never makes an array larger. */
  lemma {:induction false} UnsetShrinks(es: seq<Entry>, k: string)
    ensures SizeOfEntries(Unset(es, k)) <= SizeOfEntries(es)
  {
    if es != [] {
      UnsetShrinks(es[1..], k);
      assert es == [es[0]] + es[1..];
      SizeOfCons(es[0], es[1..]);
      if es[0].key != Name(k) {
        SizeOfCons(es[0], Unset(es[1..], k));
      }
    }
  }

  /** `unset` removes exactly the entries under the key, and changes nothing when the key is absent. */
  lemma {:induction false} UnsetRemovesExactlyKey(es: seq<Entry>, k: string)
    ensures forall e :: e in Unset(es, k) <==> e in es && e.key != Name(k)
    ensures (forall i :: 0 <= i < |es| ==> es[i].key != Name(k)) ==> Unset(es, k) == es
  {
    if es != [] {
      UnsetRemovesExactlyKey(es[1..], k);
      assert es == [es[0]] + es[1..];
    }
  }

  /**
   * `unset` keeps the other entries in their order: it works entry by entry,
   * so unsetting a concatenation unsets each part.
   */
  lemma {:induction false} UnsetDistributes(a: seq<Entry>, b: seq<Entry>, k: string)
    ensures Unset(a + b, k) == Unset(a, k) + Unset(b, k)
  {
    if a == [] {
      assert a + b == b;
    } else {
      var head := if a[0].key == Name(k) then [] else [a[0]];
      assert Unset(a + b, k) == head + Unset(a[1..] + b, k) by {
        assert a + b == [a[0]] + (a[1..] + b);
        UnsetCons(a[0], a[1..] + b, k);
      }
      assert Unset(a, k) == head + Unset(a[1..], k) by {
        assert a == [a[0]] + a[1..];
        UnsetCons(a[0], a[1..], k);
      }
      UnsetDistributes(a[1..], b, k);
      assert head + (Unset(a[1..], k) + Unset(b, k)) == (head + Unset(a[1..], k)) + Unset(b, k);
    }
  }

  /** `unset` on a sequence with a first entry: that entry survives exactly when it is not under the key. */
  lemma UnsetCons(e: Entry, rest: seq<Entry>, k: string)
    ensures Unset([e] + rest, k) == (if e.key == Name(k) then [] else [e]) + Unset(rest, k)
  {
    var s := [e] + rest;
    assert s[0] == e && s[1..] == rest;
  }

  /** The boolean cast `(bool)$v`: null, "", "0" and the empty array are false. */
  function Truthy(v: Value): (b: bool)
    ensures !b <==> v == Null || v == Str("") || v == Str("0") || v == Array([])
  {
    match v
    case Null => false
    case Str(s) => s != "" && s != "0"
    case Array(es) => es != []
  }

  function LowerChar(c: char): char
  {
    if 'A' <= c <= 'Z' then (c as int + ('a' as int - 'A' as int)) as char else c
  }

  predicate IsLower(s: string)
  {
    forall i :: 0 <= i < |s| ==> !('A' <= s[i] <= 'Z')
  }

  /** `strtolower` on ASCII text: each letter A-Z becomes a-z, nothing else changes. */
  function Lower(s: string): (r: string)
    ensures |r| == |s|
    ensures forall i :: 0 <= i < |s| ==> r[i] == LowerChar(s[i])
    ensures IsLower(r)
  {
    if s == [] then [] else [LowerChar(s[0])] + Lower(s[1..])
  }

  /** Lower-casing changes exactly the strings that hold an upper-case letter. */
  lemma LowerFixesExactlyLowerCase(s: string)
    ensures Lower(s) == s <==> IsLower(s)
  {
    if IsLower(s) {
      assert forall i :: 0 <= i < |s| ==> Lower(s)[i] == s[i];
    }
  }
}
