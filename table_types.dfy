/** The table-type filter of the table listing: the sorted list of the type
    names a table can report, the binary search that looks a requested name
    up in it, and the set of type names a request selects. */
module TableTypes {

  /** The sign of Java's String.compareTo: character by character, a proper
      prefix before the longer string. */
  function CompareStrings(a: string, b: string): int
    decreases |a|
  {
    if a == [] then (if b == [] then 0 else -1)
    else if b == [] then 1
    else if a[0] < b[0] then -1
    else if a[0] > b[0] then 1
    else CompareStrings(a[1..], b[1..])
  }

  lemma {:induction false} CompareStringsZero(a: string, b: string)
    ensures CompareStrings(a, b) == 0 <==> a == b
    decreases |a|
  {
    if a != [] && b != [] && a[0] == b[0] {
      CompareStringsZero(a[1..], b[1..]);
      assert a == [a[0]] + a[1..] && b == [b[0]] + b[1..];
    }
  }

  lemma {:induction false} CompareStringsAntisymmetric(a: string, b: string)
    ensures CompareStrings(a, b) < 0 <==> CompareStrings(b, a) > 0
    decreases |a|
  {
    if a != [] && b != [] && a[0] == b[0] {
      CompareStringsAntisymmetric(a[1..], b[1..]);
    }
  }

  lemma {:induction false} CompareStringsTransitive(a: string, b: string, c: string)
    requires CompareStrings(a, b) < 0 && CompareStrings(b, c) < 0
    ensures CompareStrings(a, c) < 0
    decreases |a|
  {
    if a != [] && b != [] && c != [] && a[0] == b[0] && b[0] == c[0] {
      CompareStringsTransitive(a[1..], b[1..], c[1..]);
    }
  }

  /** Every element is less than every later one. */
  ghost predicate StrictlySorted(a: seq<string>) {
    forall i, j :: 0 <= i < j < |a| ==> CompareStrings(a[i], a[j]) < 0
  }

  /** The table types a table can report, in ascending order (the binary
      search over them needs the order). */
  const TABLE_TYPES: seq<string> := ["BASE TABLE", "GLOBAL TEMPORARY", "LOCAL TEMPORARY", "SYNONYM", "VIEW"]

  /** A list whose neighbours are in ascending order is in ascending order. */
  lemma {:induction false} AdjacentStrictlySorted(a: seq<string>)
    requires forall k :: 0 <= k < |a| - 1 ==> CompareStrings(a[k], a[k + 1]) < 0
    ensures StrictlySorted(a)
    decreases |a|
  {
    if |a| > 1 {
      var b := a[1..];
      forall k | 0 <= k < |b| - 1 ensures CompareStrings(b[k], b[k + 1]) < 0 {
        assert b[k] == a[k + 1] && b[k + 1] == a[k + 2];
      }
      AdjacentStrictlySorted(b);
      forall i, j | 0 <= i < j < |a| ensures CompareStrings(a[i], a[j]) < 0 {
        if 0 < i {
          assert a[i] == b[i - 1] && a[j] == b[j - 1];
        } else if 1 < j {
          assert a[1] == b[0] && a[j] == b[j - 1];
          CompareStringsTransitive(a[0], a[1], a[j]);
        }
      }
    }
  }

  /** The type list really is in the order the binary search needs. */
  lemma TableTypesSorted()
    ensures StrictlySorted(TABLE_TYPES)
  {
    var t := TABLE_TYPES;
    forall k | 0 <= k < |t| - 1 ensures CompareStrings(t[k], t[k + 1]) < 0 {
      if k == 0 {
        assert t[k][0] < t[k + 1][0];
      } else if k == 1 {
        assert t[k][0] < t[k + 1][0];
      } else if k == 2 {
        assert t[k][0] < t[k + 1][0];
      } else {
        assert t[k][0] < t[k + 1][0];
      }
    }
    AdjacentStrictlySorted(t);
  }

  /** Java's Arrays.binarySearch on a sorted array: the index of the key
      when it is present, otherwise -(insertion point) - 1, the insertion
      point being the number of elements smaller than the key. */
  method BinarySearch(a: seq<string>, key: string) returns (idx: int)
    requires StrictlySorted(a)
    ensures 0 <= idx ==> idx < |a| && a[idx] == key
    ensures idx < 0 <==> key !in a
    ensures idx < 0 ==>
      && -(idx + 1) <= |a|
      && (forall i :: 0 <= i < -(idx + 1) ==> CompareStrings(a[i], key) < 0)
      && (forall i :: -(idx + 1) <= i < |a| ==> CompareStrings(a[i], key) > 0)
  {
    var low, high := 0, |a| - 1;
    while low <= high
      invariant 0 <= low <= high + 1 <= |a|
      invariant forall i :: 0 <= i < low ==> CompareStrings(a[i], key) < 0
      invariant forall i :: high < i < |a| ==> CompareStrings(a[i], key) > 0
    {
      var mid := (low + high) / 2;
      var c := CompareStrings(a[mid], key);
      if c < 0 {
        forall i | 0 <= i <= mid ensures CompareStrings(a[i], key) < 0 {
          if i < mid {
            CompareStringsTransitive(a[i], a[mid], key);
          }
        }
        low := mid + 1;
      } else if c > 0 {
        forall i | mid <= i < |a| ensures CompareStrings(a[i], key) > 0 {
          if mid < i {
            CompareStringsAntisymmetric(a[mid], a[i]);
            CompareStringsAntisymmetric(key, a[mid]);
            CompareStringsTransitive(key, a[mid], a[i]);
            CompareStringsAntisymmetric(key, a[i]);
          }
        }
        high := mid - 1;
      } else {
        CompareStringsZero(a[mid], key);
        return mid;
      }
    }
    forall i | 0 <= i < |a| ensures a[i] != key {
      CompareStringsZero(a[i], key);
    }
    idx := -(low + 1);
  }

  /** The type names one requested name selects: itself when it is a known
      type, BASE TABLE for the bare name TABLE, nothing otherwise. */
  function SelectedTypes(requested: string): set<string> {
    if requested in TABLE_TYPES then {requested}
    else if requested == "TABLE" then {"BASE TABLE"}
    else {}
  }

  /** The type names a list of requested names selects. */
  function RequestedTypes(types: seq<string>): set<string>
    decreases |types|
  {
    if types == [] then {}
    else RequestedTypes(types[..|types| - 1]) + SelectedTypes(types[|types| - 1])
  }

  /** A type name is selected exactly when it is a known type that was
      requested, or it is BASE TABLE and TABLE was requested. */
  lemma {:induction false} RequestedTypesMembers(types: seq<string>, x: string)
    ensures x in RequestedTypes(types) <==>
      (x in TABLE_TYPES && x in types) || (x == "BASE TABLE" && "TABLE" in types)
    decreases |types|
  {
    if types != [] {
      var n := |types| - 1;
      RequestedTypesMembers(types[..n], x);
      assert types == types[..n] + [types[n]];
    }
  }

  /** The name TABLE selects what BASE TABLE selects. */
  lemma TableIsBaseTable()
    ensures RequestedTypes(["TABLE"]) == RequestedTypes(["BASE TABLE"]) == {"BASE TABLE"}
  {
    assert "TABLE" !in TABLE_TYPES;
    assert ["TABLE"][..0] == [] && ["BASE TABLE"][..0] == [];
  }

  /** Builds the set of selected type names, looking each requested name up
      in the sorted type list. */
  method NormalizeTableTypes(types: seq<string>) returns (typesSet: set<string>)
    ensures typesSet == RequestedTypes(types)
    ensures typesSet <= set t | t in TABLE_TYPES
  {
    TableTypesSorted();
    typesSet := {};
    var k := 0;
    while k < |types|
      invariant 0 <= k <= |types|
      invariant typesSet == RequestedTypes(types[..k])
      invariant typesSet <= set t | t in TABLE_TYPES
    {
      var t := types[k];
      var idx := BinarySearch(TABLE_TYPES, t);
      if idx >= 0 {
        typesSet := typesSet + {TABLE_TYPES[idx]};
      } else if t == "TABLE" {
        typesSet := typesSet + {"BASE TABLE"};
      }
      assert types[..k + 1][..k] == types[..k];
      k := k + 1;
    }
    assert types[..k] == types;
  }
}
