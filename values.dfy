/** Cell values of a metadata result, the errors an operation can raise, and
    the order in which a result sorts its rows. */
module Values {

  datatype Option<T> = None | Some(value: T)

  /** The exceptions the metadata operations raise. */
  datatype MetaError =
    | InvalidValue(parameter: string)   // a required argument was null
    | UnknownAction(code: int)          // an internal error: a referential action the mapping does not know
    | IndexOutOfBounds(index: int)      // an array access past the end of a column list

  datatype Result<T> = Ok(value: T) | Err(error: MetaError)

  /** A cell of a result row: SQL NULL, a character string, an integer of
      any width (SMALLINT, INTEGER or BIGINT) or a BOOLEAN. */
  datatype Value = Null | Str(s: string) | Int(i: int) | Bool(b: bool)

  type Row = seq<Value>

  /** NULL for an absent string, otherwise the string as a VARCHAR value. */
  function GetString(s: Option<string>): Value {
    if s.None? then Null else Str(s.value)
  }

  /** "YES" or "NO", the textual flags of the metadata contract. */
  function YesNo(b: bool): Value {
    if b then Str("YES") else Str("NO")
  }

  const INT_MIN := -0x8000_0000
  const INT_MAX := 0x7fff_ffff
  const SHORT_MIN := -0x8000
  const SHORT_MAX := 0x7fff

  /** Saturating narrowing of a 64-bit value to a 32-bit one. */
  function ConvertLongToInt(x: int): (r: int)
    ensures INT_MIN <= r <= INT_MAX
    ensures INT_MIN <= x <= INT_MAX ==> r == x
    ensures x < INT_MIN ==> r == INT_MIN
    ensures x > INT_MAX ==> r == INT_MAX
  {
    if x <= INT_MIN then INT_MIN else if x >= INT_MAX then INT_MAX else x
  }

  /** Saturating narrowing of a 32-bit value to a 16-bit one. */
  function ConvertIntToShort(x: int): (r: int)
    ensures SHORT_MIN <= r <= SHORT_MAX
    ensures SHORT_MIN <= x <= SHORT_MAX ==> r == x
    ensures x < SHORT_MIN ==> r == SHORT_MIN
    ensures x > SHORT_MAX ==> r == SHORT_MAX
  {
    if x <= SHORT_MIN then SHORT_MIN else if x >= SHORT_MAX then SHORT_MAX else x
  }

  /** Java's narrowing cast to short: the low 16 bits read as a signed value. */
  function ToShort(x: int): (r: int)
    ensures SHORT_MIN <= r <= SHORT_MAX
    ensures SHORT_MIN <= x <= SHORT_MAX ==> r == x
    ensures (x - r) % 0x1_0000 == 0
  {
    (x + 0x8000) % 0x1_0000 - 0x8000
  }

  /** Concatenation of f(x) for the elements x of s, in order. */
  function FlatMap<T, U>(s: seq<T>, f: T -> seq<U>): seq<U>
    decreases |s|
  {
    if s == [] then [] else FlatMap(s[..|s| - 1], f) + f(s[|s| - 1])
  }

  lemma FlatMapSnoc<T, U>(s: seq<T>, f: T -> seq<U>, i: nat)
    requires i < |s|
    ensures FlatMap(s[..i + 1], f) == FlatMap(s[..i], f) + f(s[i])
  {
    assert s[..i + 1][..i] == s[..i];
  }

  /** Every element of a FlatMap comes from the image of some element. */
  lemma {:induction false} FlatMapMember<T, U>(s: seq<T>, f: T -> seq<U>, u: U)
    requires u in FlatMap(s, f)
    ensures exists i :: 0 <= i < |s| && u in f(s[i])
    decreases |s|
  {
    var n := |s| - 1;
    if u in FlatMap(s[..n], f) {
      FlatMapMember(s[..n], f, u);
      var i :| 0 <= i < n && u in f(s[..n][i]);
      assert s[..n][i] == s[i];
    } else {
      assert u in f(s[n]);
    }
  }

  /** Everything in the image of an element is in the FlatMap. */
  lemma {:induction false} FlatMapContains<T, U>(s: seq<T>, f: T -> seq<U>, i: nat, u: U)
    requires i < |s| && u in f(s[i])
    ensures u in FlatMap(s, f)
    decreases |s|
  {
    var n := |s| - 1;
    if i < n {
      FlatMapContains(s[..n], f, i, u);
    }
  }

  /** inner occurs in outer as one contiguous block. */
  ghost predicate Infix<U(!new)>(inner: seq<U>, outer: seq<U>) {
    exists before, after :: outer == before + inner + after
  }

  /** A block of a block is a block. */
  lemma InfixTransitive<U(!new)>(inner: seq<U>, middle: seq<U>, outer: seq<U>)
    requires Infix(inner, middle) && Infix(middle, outer)
    ensures Infix(inner, outer)
  {
    var a, b :| middle == a + inner + b;
    var c, d :| outer == c + middle + d;
    assert outer == (c + a) + inner + (b + d);
  }

  /** The image of each element is one contiguous block of the FlatMap. */
  lemma {:induction false} FlatMapInfix<T, U(!new)>(s: seq<T>, f: T -> seq<U>, i: nat)
    requires i < |s|
    ensures Infix(f(s[i]), FlatMap(s, f))
    decreases |s|
  {
    var n := |s| - 1;
    if i == n {
      assert FlatMap(s, f) == FlatMap(s[..n], f) + f(s[i]) + [];
    } else {
      FlatMapInfix(s[..n], f, i);
      assert s[..n][i] == s[i];
      var a, b :| FlatMap(s[..n], f) == a + f(s[i]) + b;
      assert FlatMap(s, f) == a + f(s[i]) + (b + f(s[n]));
    }
  }

  /** f applied to every element of s, in order. */
  function Map<T, U>(s: seq<T>, f: T -> U): (r: seq<U>)
    ensures |r| == |s|
  {
    seq(|s|, i requires 0 <= i < |s| => f(s[i]))
  }

  lemma AppendAssoc<T>(a: seq<T>, b: seq<T>, c: seq<T>)
    ensures (a + b) + c == a + (b + c)
  {
  }

  /** The rows of a growing enumeration grow by the rows of its last element. */
  lemma MapFlatMapSnoc<T, U, V>(s: seq<T>, f: T -> seq<U>, h: U -> V, i: nat)
    requires i < |s|
    ensures Map(FlatMap(s[..i + 1], f), h) == Map(FlatMap(s[..i], f), h) + Map(f(s[i]), h)
  {
    FlatMapSnoc(s, f, i);
    MapAppend(FlatMap(s[..i], f), f(s[i]), h);
  }

  lemma MapSnoc<T, U>(s: seq<T>, f: T -> U, i: nat)
    requires i < |s|
    ensures Map(s[..i + 1], f) == Map(s[..i], f) + [f(s[i])]
  {
    assert Map(s[..i + 1], f)[i] == f(s[i]);
  }

  lemma MapAppend<T, U>(a: seq<T>, b: seq<T>, f: T -> U)
    ensures Map(a + b, f) == Map(a, f) + Map(b, f)
  {
    var l, r := Map(a + b, f), Map(a, f) + Map(b, f);
    forall i | 0 <= i < |l| ensures l[i] == r[i] {
      if i < |a| {
        assert (a + b)[i] == a[i];
      } else {
        assert (a + b)[i] == b[i - |a|];
      }
    }
  }

  /** Mapping keeps a block a block. */
  lemma MapInfix<T(!new), U(!new)>(inner: seq<T>, outer: seq<T>, f: T -> U)
    requires Infix(inner, outer)
    ensures Infix(Map(inner, f), Map(outer, f))
  {
    var a, b :| outer == a + inner + b;
    MapAppend(a + inner, b, f);
    MapAppend(a, inner, f);
    assert Map(outer, f) == Map(a, f) + Map(inner, f) + Map(b, f);
  }

  lemma MapMember<T, U>(s: seq<T>, f: T -> U, u: U)
    ensures u in Map(s, f) <==> exists i :: 0 <= i < |s| && u == f(s[i])
  {
    if u in Map(s, f) {
      var i :| 0 <= i < |s| && Map(s, f)[i] == u;
    }
    if exists i :: 0 <= i < |s| && u == f(s[i]) {
      var i :| 0 <= i < |s| && u == f(s[i]);
      assert Map(s, f)[i] == u;
    }
  }

  /** Like FlatMap, but the first element whose image is an error makes the
      whole result that error (an exception aborts the enumeration). */
  function FlatMapResult<T, U>(s: seq<T>, f: T -> Result<seq<U>>): Result<seq<U>>
    decreases |s|
  {
    if s == [] then Ok([])
    else
      match FlatMapResult(s[..|s| - 1], f)
      case Err(e) => Err(e)
      case Ok(init) =>
        match f(s[|s| - 1])
        case Err(e) => Err(e)
        case Ok(last) => Ok(init + last)
  }

  lemma FlatMapResultSnoc<T, U>(s: seq<T>, f: T -> Result<seq<U>>, i: nat)
    requires i < |s|
    ensures FlatMapResult(s[..i + 1], f) ==
      match FlatMapResult(s[..i], f)
      case Err(e) => Err(e)
      case Ok(init) => (match f(s[i]) case Err(e) => Err(e) case Ok(last) => Ok(init + last))
  {
    assert s[..i + 1][..i] == s[..i];
  }

  /** A successful prefix extended by an element whose image succeeds:
      the mapped values grow by the mapped image. */
  lemma MapFlatMapResultSnoc<T, U, V>(s: seq<T>, f: T -> Result<seq<U>>, h: U -> V, i: nat)
    requires i < |s| && FlatMapResult(s[..i], f).Ok? && f(s[i]).Ok?
    ensures FlatMapResult(s[..i + 1], f).Ok?
    ensures Map(FlatMapResult(s[..i + 1], f).value, h)
         == Map(FlatMapResult(s[..i], f).value, h) + Map(f(s[i]).value, h)
  {
    FlatMapResultSnoc(s, f, i);
    MapAppend(FlatMapResult(s[..i], f).value, f(s[i]).value, h);
  }

  /** When no element's image is an error, FlatMapResult is FlatMap of the values. */
  lemma {:induction false} FlatMapResultOk<T, U>(s: seq<T>, f: T -> Result<seq<U>>, g: T -> seq<U>)
    requires forall i :: 0 <= i < |s| ==> f(s[i]) == Ok(g(s[i]))
    ensures FlatMapResult(s, f) == Ok(FlatMap(s, g))
    decreases |s|
  {
    if s != [] {
      var n := |s| - 1;
      forall i | 0 <= i < n ensures f(s[..n][i]) == Ok(g(s[..n][i])) {
        assert s[..n][i] == s[i];
      }
      FlatMapResultOk(s[..n], f, g);
    }
  }

  /** When the whole enumeration succeeds, every element's image succeeds. */
  lemma {:induction false} FlatMapResultAllOk<T, U>(s: seq<T>, f: T -> Result<seq<U>>, i: nat)
    requires FlatMapResult(s, f).Ok? && i < |s|
    ensures f(s[i]).Ok?
    decreases |s|
  {
    var n := |s| - 1;
    if i < n {
      FlatMapResultAllOk(s[..n], f, i);
      assert s[..n][i] == s[i];
    }
  }

  /** Every element of a successful enumeration comes from some element's image. */
  lemma {:induction false} FlatMapResultMember<T, U>(s: seq<T>, f: T -> Result<seq<U>>, u: U)
    requires FlatMapResult(s, f).Ok? && u in FlatMapResult(s, f).value
    ensures exists i :: 0 <= i < |s| && f(s[i]).Ok? && u in f(s[i]).value
    decreases |s|
  {
    var n := |s| - 1;
    if u in FlatMapResult(s[..n], f).value {
      FlatMapResultMember(s[..n], f, u);
      var i :| 0 <= i < n && f(s[..n][i]).Ok? && u in f(s[..n][i]).value;
      assert s[..n][i] == s[i];
    } else {
      assert f(s[n]).Ok? && u in f(s[n]).value;
    }
  }

  /** Everything in an element's image is in a successful enumeration. */
  lemma {:induction false} FlatMapResultContains<T, U>(s: seq<T>, f: T -> Result<seq<U>>, i: nat, u: U)
    requires FlatMapResult(s, f).Ok? && i < |s|
    requires f(s[i]).Ok? && u in f(s[i]).value
    ensures u in FlatMapResult(s, f).value
    decreases |s|
  {
    var n := |s| - 1;
    if i < n {
      assert s[..n][i] == s[i];
      FlatMapResultContains(s[..n], f, i, u);
    }
  }

  /** The first element whose image is an error makes the whole
      enumeration that error. */
  lemma {:induction false} FlatMapResultErr<T, U>(s: seq<T>, f: T -> Result<seq<U>>, i: nat)
    requires i < |s| && FlatMapResult(s[..i], f).Ok? && f(s[i]).Err?
    ensures FlatMapResult(s, f) == Err(f(s[i]).error)
    decreases |s|
  {
    var n := |s| - 1;
    if i < n {
      assert s[..n][..i] == s[..i] && s[..n][i] == s[i];
      FlatMapResultErr(s[..n], f, i);
    } else {
      assert s[..n] == s[..i];
    }
  }

  /** An element whose image is an error makes the whole enumeration an
      error. */
  lemma {:induction false} FlatMapResultErrPrefix<T, U>(s: seq<T>, f: T -> Result<seq<U>>, i: nat)
    requires i < |s| && f(s[i]).Err?
    ensures FlatMapResult(s, f).Err?
    decreases |s|
  {
    var n := |s| - 1;
    if i < n {
      assert s[..n][i] == s[i];
      FlatMapResultErrPrefix(s[..n], f, i);
    }
  }

  // ---------------------------------------------------------------------
  // Comparators

  /** The laws of a comparator that defines a total preorder: the sign flips
      when the arguments are swapped, and "not greater" is transitive.
      Different values may compare equal (a case-insensitive collation). */
  ghost predicate TotalPreorder<T(!new)>(cmp: (T, T) -> int) {
    && (forall a, b :: cmp(a, b) < 0 <==> cmp(b, a) > 0)
    && (forall a, b :: cmp(a, b) == 0 <==> cmp(b, a) == 0)
    && (forall a, b, c :: cmp(a, b) <= 0 && cmp(b, c) <= 0 ==> cmp(a, c) <= 0)
  }

  function CompareInt(x: int, y: int): int {
    if x < y then -1 else if x > y then 1 else 0
  }

  function CompareBool(x: bool, y: bool): int {
    if x == y then 0 else if !x then -1 else 1
  }

  function Rank(v: Value): nat {
    match v
    case Null => 0
    case Bool(_) => 1
    case Int(_) => 2
    case Str(_) => 3
  }

  /** How a sort order compares two cells in ascending order: NULL sorts
      first, strings follow the database collation, numbers and booleans
      their natural order. (Cells of one result column share one kind; the
      rank only makes the comparison total.) */
  function CompareValues(coll: (string, string) -> int, a: Value, b: Value): int {
    if Rank(a) != Rank(b) then CompareInt(Rank(a), Rank(b))
    else
      match a
      case Null => 0
      case Bool(x) => CompareBool(x, b.b)
      case Int(x) => CompareInt(x, b.i)
      case Str(x) => coll(x, b.s)
  }

  /** The cell of a row in a given column, NULL past its end. */
  function Cell(r: Row, k: nat): Value {
    if k < |r| then r[k] else Null
  }

  /** Lexicographic comparison of two rows on the columns of `key`, as a
      multi-column ascending sort order compares them. */
  function CompareRows(coll: (string, string) -> int, key: seq<nat>, a: Row, b: Row): int
    decreases |key|
  {
    if key == [] then 0
    else
      var c := CompareValues(coll, Cell(a, key[0]), Cell(b, key[0]));
      if c != 0 then c else CompareRows(coll, key[1..], a, b)
  }

  function RowOrder(coll: (string, string) -> int, key: seq<nat>): (Row, Row) -> int {
    (a: Row, b: Row) => CompareRows(coll, key, a, b)
  }

  lemma ValuesAntisymmetric(coll: (string, string) -> int, a: Value, b: Value)
    requires TotalPreorder(coll)
    ensures CompareValues(coll, a, b) < 0 <==> CompareValues(coll, b, a) > 0
    ensures CompareValues(coll, a, b) == 0 <==> CompareValues(coll, b, a) == 0
  {
  }

  lemma ValuesReflexive(coll: (string, string) -> int, a: Value)
    requires TotalPreorder(coll)
    ensures CompareValues(coll, a, a) == 0
  {
    if a.Str? {
      assert coll(a.s, a.s) < 0 <==> coll(a.s, a.s) > 0;
    }
  }

  lemma ValuesTransitive(coll: (string, string) -> int, a: Value, b: Value, c: Value)
    requires TotalPreorder(coll)
    requires CompareValues(coll, a, b) <= 0 && CompareValues(coll, b, c) <= 0
    ensures CompareValues(coll, a, c) <= 0
  {
    if Rank(a) == Rank(b) == Rank(c) && a.Str? {
      assert coll(a.s, b.s) <= 0 && coll(b.s, c.s) <= 0;
    }
  }

  lemma {:induction false} RowsAntisymmetric(coll: (string, string) -> int, key: seq<nat>, a: Row, b: Row)
    requires TotalPreorder(coll)
    ensures CompareRows(coll, key, a, b) < 0 <==> CompareRows(coll, key, b, a) > 0
    ensures CompareRows(coll, key, a, b) == 0 <==> CompareRows(coll, key, b, a) == 0
    decreases |key|
  {
    if key != [] {
      ValuesAntisymmetric(coll, Cell(a, key[0]), Cell(b, key[0]));
      RowsAntisymmetric(coll, key[1..], a, b);
    }
  }

  lemma {:induction false} RowsTransitive(coll: (string, string) -> int, key: seq<nat>, a: Row, b: Row, c: Row)
    requires TotalPreorder(coll)
    requires CompareRows(coll, key, a, b) <= 0 && CompareRows(coll, key, b, c) <= 0
    ensures CompareRows(coll, key, a, c) <= 0
    decreases |key|
  {
    if key != [] {
      var x, y, z := Cell(a, key[0]), Cell(b, key[0]), Cell(c, key[0]);
      ValuesAntisymmetric(coll, x, y);
      ValuesAntisymmetric(coll, y, z);
      ValuesAntisymmetric(coll, x, z);
      ValuesTransitive(coll, x, y, z);
      if CompareValues(coll, x, z) == 0 {
        // x and z are equivalent, so neither step from x to y to z can be strict
        ValuesTransitive(coll, z, x, y);
        ValuesTransitive(coll, y, z, x);
        RowsTransitive(coll, key[1..], a, b, c);
      }
    }
  }

  /** A multi-column sort order over a collation that is a total preorder
      is itself a total preorder on rows. */
  lemma RowOrderIsTotalPreorder(coll: (string, string) -> int, key: seq<nat>)
    requires TotalPreorder(coll)
    ensures TotalPreorder(RowOrder(coll, key))
  {
    var cmp := RowOrder(coll, key);
    forall a, b ensures cmp(a, b) < 0 <==> cmp(b, a) > 0
      ensures cmp(a, b) == 0 <==> cmp(b, a) == 0
    {
      RowsAntisymmetric(coll, key, a, b);
    }
    forall a, b, c | cmp(a, b) <= 0 && cmp(b, c) <= 0 ensures cmp(a, c) <= 0 {
      RowsTransitive(coll, key, a, b, c);
    }
  }
}
