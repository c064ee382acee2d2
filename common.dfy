/**
 * Shared vocabulary of the model: request values as the PHP controllers see
 * them, the few string and number conversions both PHP and JavaScript code
 * rely on, the substring test behind every `LIKE '%term%'` filter, and the
 * ten-per-page paginator.
 */
module Common {

  datatype Option<T> = None | Some(value: T)

  /**
   * A request value as a controller receives it: absent or null, a boolean or
   * integer from a JSON body, a string, or an array of strings (the only
   * arrays the forms send).
   */
  datatype Value = Null | Bool(b: bool) | Int(i: int) | Str(s: string) | List(items: seq<string>)

  // ---------------------------------------------------------------------------
  // PHP values

  /** PHP truthiness, as `if ($v)` and the query builder's `when($v, ...)` test it. */
  predicate Truthy(v: Value) {
    match v
    case Null => false
    case Bool(b) => b
    case Int(i) => i != 0
    case Str(s) => s != "" && s != "0"
    case List(items) => items != []
  }

  /** PHP's string conversion, as string interpolation `"%{$v}%"` applies it. */
  function TextOf(v: Value): string {
    match v
    case Null => ""
    case Bool(b) => if b then "1" else ""
    case Int(i) => IntToString(i)
    case Str(s) => s
    case List(_) => "Array"
  }

  /**
   * Whether a `when($term, ...)` callback that builds `"%{$term}%"` throws:
   * the callback runs only for a truthy term, and converting an array to a
   * string raises PHP 8's "Array to string conversion" warning, which
   * Laravel's error handler rethrows as an exception.
   */
  predicate LikeThrows(term: Value) {
    Truthy(term) && term.List?
  }

  /**
   * What a controller action answers: the response it builds (an Inertia
   * page's props or a JSON body), the 404 of a failed route model binding,
   * or the 500 of an exception the action does not catch.
   */
  datatype Answer<T> = Rendered(props: T) | BindingMissing | Thrown

  /** The characters PHP's `trim` strips by default. */
  predicate IsPhpSpace(c: char) {
    c == ' ' || c == '\t' || c == '\n' || c == '\r' || c == '\0' || c == '\U{000B}'
  }

  /** The characters JavaScript's `trim` strips: white space and line terminators. */
  predicate IsJsSpace(c: char) {
    c == ' ' || c == '\t' || c == '\n' || c == '\r' || c == '\U{000B}' || c == '\U{000C}' ||
    c == '\U{00A0}' || c == '\U{1680}' || ('\U{2000}' <= c <= '\U{200A}') || c == '\U{2028}' ||
    c == '\U{2029}' || c == '\U{202F}' || c == '\U{205F}' || c == '\U{3000}' || c == '\U{FEFF}'
  }

  /** Laravel's `required` rule: not null, not a blank string, not an empty array. */
  predicate Required(v: Value) {
    match v
    case Null => false
    case Str(s) => Trim(s, IsPhpSpace) != ""
    case List(items) => items != []
    case _ => true
  }

  /** Laravel's `string` rule. */
  predicate IsString(v: Value) {
    v.Str?
  }

  /** PHP's 64-bit integer range. */
  const PhpIntMin: int := -0x8000_0000_0000_0000
  const PhpIntMax: int := 0x7FFF_FFFF_FFFF_FFFF

  /** The white space `FILTER_VALIDATE_INT` strips from both ends: space, tab, CR, LF and vertical tab. */
  predicate IsFilterSpace(c: char) {
    c == ' ' || c == '\t' || c == '\r' || c == '\n' || c == '\U{000B}'
  }

  /** A bare decimal integer literal: an optional sign, then `0` or digits without a leading zero. */
  predicate IsDecimalLiteral(s: string) {
    var d := if |s| > 0 && (s[0] == '-' || s[0] == '+') then s[1..] else s;
    |d| > 0 && AllDigits(d) && (d[0] != '0' || |d| == 1)
  }

  function DecimalLiteralValue(s: string): int
    requires IsDecimalLiteral(s)
  {
    if s[0] == '-' then 0 - DigitsValue(s[1..]) as int
    else if s[0] == '+' then DigitsValue(s[1..])
    else DigitsValue(s)
  }

  /**
   * A string `filter_var(..., FILTER_VALIDATE_INT)` accepts: a decimal
   * literal once the white space around it is stripped, whose value lies in
   * PHP's integer range.
   */
  predicate IsIntLiteral(s: string) {
    var t := Trim(s, IsFilterSpace);
    IsDecimalLiteral(t) && PhpIntMin <= DecimalLiteralValue(t) <= PhpIntMax
  }

  function IntLiteralValue(s: string): (n: int)
    requires IsIntLiteral(s)
    ensures PhpIntMin <= n <= PhpIntMax
  {
    DecimalLiteralValue(Trim(s, IsFilterSpace))
  }

  /** Laravel's `integer` rule, which is `FILTER_VALIDATE_INT`: `true` reads as 1, and a JSON number beyond 64 bits fails. */
  predicate IsInteger(v: Value) {
    match v
    case Int(i) => PhpIntMin <= i <= PhpIntMax
    case Bool(b) => b
    case Str(s) => IsIntLiteral(s)
    case _ => false
  }

  /** A value the `integer` rule accepts also passes `required`: an integer literal is never blank. */
  lemma IntegerIsRequired(v: Value)
    requires IsInteger(v)
    ensures Required(v)
  {
    if v.Str? {
      LiteralNotBlank(v.s);
    }
  }

  /** An accepted literal holds a digit, which PHP's `trim` keeps. */
  lemma LiteralNotBlank(s: string)
    requires IsIntLiteral(s)
    ensures Trim(s, IsPhpSpace) != ""
  {
    var i := DigitInside(s);
    assert !IsPhpSpace(s[i]);
    TrimEmpty(s, IsPhpSpace);
  }

  lemma DigitInside(s: string) returns (i: nat)
    requires IsIntLiteral(s)
    ensures i < |s| && IsDigit(s[i])
  {
    var ts := TrimStart(s, IsFilterSpace);
    var t := TrimEnd(ts, IsFilterSpace);
    var k := if t[0] == '-' || t[0] == '+' then 1 else 0;
    assert IsDigit(t[k]);
    assert t[k] == ts[k] == s[|s| - |ts| + k];
    i := |s| - |ts| + k;
  }

  /** White space around an integer does not change what the rule makes of it: `" 5"` is the integer 5. */
  lemma {:induction false} IntegerAroundSpaces(a: string, n: int, b: string)
    requires forall i :: 0 <= i < |a| ==> IsFilterSpace(a[i])
    requires forall i :: 0 <= i < |b| ==> IsFilterSpace(b[i])
    ensures IsInteger(Str(a + IntToString(n) + b)) <==> PhpIntMin <= n <= PhpIntMax
    ensures PhpIntMin <= n <= PhpIntMax ==> IntegerOf(Str(a + IntToString(n) + b)) == n
  {
    var t := IntToString(n);
    IntToStringLiteral(n);
    assert t != [] && !IsFilterSpace(t[0]) && !IsFilterSpace(t[|t| - 1]);
    TrimStartSpaces(a, t, b, IsFilterSpace);
    TrimEndSpaces(t, b, IsFilterSpace);
    var x := a + t + b;
    assert Trim(x, IsFilterSpace) == t;
    assert IsIntLiteral(x) <==> PhpIntMin <= n <= PhpIntMax;
    IntegerOfStr(x);
  }

  lemma IntegerOfStr(s: string)
    ensures IsInteger(Str(s)) == IsIntLiteral(s)
    ensures IsIntLiteral(s) ==> IntegerOf(Str(s)) == IntLiteralValue(s)
  {
  }

  lemma {:induction false} TrimStartSpaces(a: string, t: string, b: string, isSpace: char -> bool)
    requires forall i :: 0 <= i < |a| ==> isSpace(a[i])
    requires t != [] && !isSpace(t[0])
    ensures TrimStart(a + t + b, isSpace) == t + b
  {
    if a == [] {
      assert a + t + b == t + b;
    } else {
      assert (a + t + b)[1..] == a[1..] + t + b;
      TrimStartSpaces(a[1..], t, b, isSpace);
    }
  }

  lemma {:induction false} TrimEndSpaces(t: string, b: string, isSpace: char -> bool)
    requires forall i :: 0 <= i < |b| ==> isSpace(b[i])
    requires t != [] && !isSpace(t[|t| - 1])
    ensures TrimEnd(t + b, isSpace) == t
  {
    if b == [] {
      assert t + b == t;
    } else {
      assert (t + b)[..|t + b| - 1] == t + b[..|b| - 1];
      TrimEndSpaces(t, b[..|b| - 1], isSpace);
    }
  }

  /** A value one past PHP's largest integer fails the rule. */
  lemma IntegerRangeBounded(n: int)
    requires n > PhpIntMax || n < PhpIntMin
    ensures !IsInteger(Int(n))
    ensures !IsIntLiteral(IntToString(n))
  {
    IntToStringLiteral(n);
  }

  /** The integer an `integer`-valid value denotes. */
  function IntegerOf(v: Value): (n: int)
    requires IsInteger(v)
    ensures PhpIntMin <= n <= PhpIntMax
  {
    match v
    case Int(i) => i
    case Bool(_) => 1
    case Str(s) => IntLiteralValue(s)
  }

  // ---------------------------------------------------------------------------
  // Strings

  predicate IsDigit(c: char) {
    '0' <= c <= '9'
  }

  predicate AllDigits(s: string) {
    forall i :: 0 <= i < |s| ==> IsDigit(s[i])
  }

  function DigitChar(d: nat): (c: char)
    requires d < 10
    ensures IsDigit(c) && c as int - '0' as int == d
  {
    (d + '0' as int) as char
  }

  /** The decimal text of a natural number, without leading zeros. */
  function NatToString(n: nat): (s: string)
    ensures |s| >= 1 && AllDigits(s)
    ensures s[0] == '0' <==> n == 0
    ensures n < 10 <==> |s| == 1
    decreases n
  {
    if n < 10 then [DigitChar(n)] else NatToString(n / 10) + [DigitChar(n % 10)]
  }

  /** JavaScript's and PHP's text of an integer. */
  function IntToString(i: int): string {
    if i < 0 then "-" + NatToString(-i) else NatToString(i)
  }

  /** The number a string of decimal digits denotes. */
  function DigitsValue(s: string): nat
    requires AllDigits(s)
  {
    if s == [] then 0 else DigitsValue(s[..|s| - 1]) * 10 + (s[|s| - 1] as int - '0' as int)
  }

  lemma {:induction false} DigitsOfNat(n: nat)
    ensures DigitsValue(NatToString(n)) == n
    decreases n
  {
    if n >= 10 {
      var s := NatToString(n);
      assert s[..|s| - 1] == NatToString(n / 10);
      DigitsOfNat(n / 10);
    }
  }

  /** The text of an integer is the decimal literal of that integer, with no white space to strip. */
  lemma IntToStringLiteral(n: int)
    ensures Trim(IntToString(n), IsFilterSpace) == IntToString(n)
    ensures IsDecimalLiteral(IntToString(n)) && DecimalLiteralValue(IntToString(n)) == n
  {
    var s := IntToString(n);
    var d := NatToString(if n < 0 then -n else n);
    assert s == if n < 0 then "-" + d else d;
    assert !IsFilterSpace(s[0]) && !IsFilterSpace(s[|s| - 1]);
    assert TrimStart(s, IsFilterSpace) == s;
    assert TrimEnd(s, IsFilterSpace) == s;
    if n < 0 {
      assert s[1..] == d;
    }
    DigitsOfNat(if n < 0 then -n else n);
  }

  /** Strips the characters `isSpace` accepts from both ends, as PHP's and JavaScript's `trim`. */
  function Trim(s: string, isSpace: char -> bool): string {
    TrimEnd(TrimStart(s, isSpace), isSpace)
  }

  function TrimStart(s: string, isSpace: char -> bool): (r: string)
    ensures |r| <= |s| && r == s[|s| - |r|..]
    ensures r != [] ==> !isSpace(r[0])
    ensures forall i :: 0 <= i < |s| - |r| ==> isSpace(s[i])
  {
    if s != [] && isSpace(s[0]) then TrimStart(s[1..], isSpace) else s
  }

  function TrimEnd(s: string, isSpace: char -> bool): (r: string)
    ensures |r| <= |s| && r == s[..|r|]
    ensures r != [] ==> !isSpace(r[|r| - 1])
    ensures forall i :: |r| <= i < |s| ==> isSpace(s[i])
  {
    if s != [] && isSpace(s[|s| - 1]) then TrimEnd(s[..|s| - 1], isSpace) else s
  }

  /** A string trims to nothing exactly when every character of it is a space. */
  lemma TrimEmpty(s: string, isSpace: char -> bool)
    ensures Trim(s, isSpace) == "" <==> forall i :: 0 <= i < |s| ==> isSpace(s[i])
  {
    var t := TrimStart(s, isSpace);
    if t != [] {
      assert !isSpace(s[|s| - |t|]);
      assert TrimEnd(t, isSpace) != [];
    }
  }

  predicate IsAsciiUpper(c: char) {
    'A' <= c <= 'Z'
  }

  predicate IsAsciiLower(c: char) {
    'a' <= c <= 'z'
  }

  /** PHP 8's `strtolower`: ASCII letters only. */
  function AsciiLower(s: string): (r: string)
    ensures |r| == |s|
    ensures forall i :: 0 <= i < |s| ==>
      r[i] == if IsAsciiUpper(s[i]) then (s[i] as int + 32) as char else s[i]
  {
    if s == [] then []
    else [if IsAsciiUpper(s[0]) then (s[0] as int + 32) as char else s[0]] + AsciiLower(s[1..])
  }

  /** JavaScript's `toUpperCase` on ASCII letters. */
  function AsciiUpper(s: string): (r: string)
    ensures |r| == |s|
    ensures forall i :: 0 <= i < |s| ==>
      r[i] == if IsAsciiLower(s[i]) then (s[i] as int - 32) as char else s[i]
  {
    if s == [] then []
    else [if IsAsciiLower(s[0]) then (s[0] as int - 32) as char else s[0]] + AsciiUpper(s[1..])
  }

  /** `sub` occurs in `s`: the match `s LIKE '%sub%'` (wildcards in `sub` aside). */
  predicate IsSubstring(sub: string, s: string)
    decreases |s|
  {
    |sub| <= |s| && (s[..|sub|] == sub || (|s| > 0 && IsSubstring(sub, s[1..])))
  }

  /** `sub` occurs in `s` starting at position `i`. */
  predicate OccursAt(sub: string, s: string, i: nat) {
    i + |sub| <= |s| && s[i..i + |sub|] == sub
  }

  lemma {:induction false} SubstringAt(sub: string, s: string)
    ensures IsSubstring(sub, s) <==> exists i: nat :: OccursAt(sub, s, i)
    decreases |s|
  {
    if |sub| <= |s| && s[..|sub|] == sub {
      assert OccursAt(sub, s, 0);
    } else if |sub| <= |s| && |s| > 0 {
      SubstringAt(sub, s[1..]);
      if IsSubstring(sub, s[1..]) {
        var j: nat :| OccursAt(sub, s[1..], j);
        TailOccursAt(sub, s, j);
      } else if exists i: nat :: OccursAt(sub, s, i) {
        var i: nat :| OccursAt(sub, s, i);
        assert i != 0;
        TailOccursAt(sub, s, i - 1);
      }
    }
  }

  /** An occurrence in the tail is an occurrence one place later in the whole. */
  lemma TailOccursAt(sub: string, s: string, j: nat)
    requires |s| > 0
    ensures OccursAt(sub, s[1..], j) <==> OccursAt(sub, s, j + 1)
  {
    if j + 1 + |sub| <= |s| {
      var a, b := s[1..][j..j + |sub|], s[j + 1..j + 1 + |sub|];
      assert |a| == |b| && forall t :: 0 <= t < |a| ==> a[t] == s[j + 1 + t] == b[t];
      assert a == b;
    }
  }

  /**
   * The fields a validator reports for a form of four fields, given whether
   * each field passed all its rules: a field is named exactly when it failed.
   */
  function FieldErrors(a: string, aPassed: bool, b: string, bPassed: bool,
                       c: string, cPassed: bool, d: string, dPassed: bool): (errors: set<string>)
    requires a != b && a != c && a != d && b != c && b != d && c != d
    ensures errors <= {a, b, c, d}
    ensures a !in errors <==> aPassed
    ensures b !in errors <==> bPassed
    ensures c !in errors <==> cPassed
    ensures d !in errors <==> dPassed
  {
    (if aPassed then {} else {a}) + (if bPassed then {} else {b}) +
    (if cPassed then {} else {c}) + (if dPassed then {} else {d})
  }

  // ---------------------------------------------------------------------------
  // Collections

  /** The elements of `xs` that satisfy `p`, in order (`array_filter`, `->where(...)`). */
  function Where<T(!new)>(xs: seq<T>, p: T -> bool): (r: seq<T>)
    ensures |r| <= |xs|
    ensures forall i :: 0 <= i < |r| ==> p(r[i])
    ensures forall x :: x in r <==> x in xs && p(x)
  {
    if xs == [] then []
    else if p(xs[0]) then [xs[0]] + Where(xs[1..], p)
    else Where(xs[1..], p)
  }

  /** Filtering keeps relative order: a relation between earlier and later elements survives. */
  lemma {:induction false} WherePairwise<T(!new)>(xs: seq<T>, p: T -> bool, R: (T, T) -> bool)
    requires forall i, j :: 0 <= i < j < |xs| ==> R(xs[i], xs[j])
    ensures forall i, j :: 0 <= i < j < |Where(xs, p)| ==> R(Where(xs, p)[i], Where(xs, p)[j])
  {
    if xs != [] {
      WherePairwise(xs[1..], p, R);
      var rest := Where(xs[1..], p);
      if p(xs[0]) {
        forall j | 0 <= j < |rest| ensures R(xs[0], rest[j]) {
          assert rest[j] in xs[1..];
          var m :| 0 <= m < |xs[1..]| && xs[1..][m] == rest[j];
          assert xs[1 + m] == rest[j];
        }
        assert Where(xs, p) == [xs[0]] + rest;
      }
    }
  }

  /**
   * `->when($term, fn ($q) => $q->where(column, 'like', "%{$term}%"))`: the
   * filter applies only when the term is truthy, and throws (`None`) when
   * that term is an array.
   */
  function WhenLike<T(!new)>(xs: seq<T>, term: Value, column: T -> string): (r: Option<seq<T>>)
    ensures r.None? <==> LikeThrows(term)
    ensures r.Some? ==> |r.value| <= |xs|
    ensures r.Some? && Truthy(term) ==> forall x :: x in r.value <==> x in xs && IsSubstring(TextOf(term), column(x))
    ensures !Truthy(term) ==> r == Some(xs)
  {
    if !Truthy(term) then Some(xs)
    else if term.List? then None
    else Some(Where(xs, LikeFilter(term, column)))
  }

  /** Whether the `when` filter on `term` keeps a row whose column is `s`. */
  predicate LikeKeeps(term: Value, s: string) {
    Truthy(term) ==> IsSubstring(TextOf(term), s)
  }

  /** The row test of the whole `when` filter. */
  function KeepFilter<T>(term: Value, column: T -> string): T -> bool {
    (x: T) => LikeKeeps(term, column(x))
  }

  /** The row test of `where(column, 'like', "%{$term}%")`. */
  function LikeFilter<T>(term: Value, column: T -> string): T -> bool {
    (x: T) => IsSubstring(TextOf(term), column(x))
  }

  /** A `when` filter that does not throw keeps exactly the rows it accepts, in order. */
  lemma WhenLikeIsWhere<T(!new)>(xs: seq<T>, term: Value, column: T -> string, keep: T -> bool)
    requires !LikeThrows(term)
    requires forall x :: keep(x) == LikeKeeps(term, column(x))
    ensures WhenLike(xs, term, column) == Some(Where(xs, keep))
  {
    if Truthy(term) {
      WhereSame(xs, LikeFilter(term, column), keep);
    } else {
      WhereAll(xs, keep);
    }
  }

  /** Two row tests that agree give the same rows. */
  lemma {:induction false} WhereSame<T(!new)>(xs: seq<T>, p: T -> bool, q: T -> bool)
    requires forall x :: p(x) == q(x)
    ensures Where(xs, p) == Where(xs, q)
  {
    if xs != [] {
      WhereSame(xs[1..], p, q);
    }
  }

  /** A row test every row passes keeps the rows as they are. */
  lemma {:induction false} WhereAll<T(!new)>(xs: seq<T>, p: T -> bool)
    requires forall x :: p(x)
    ensures Where(xs, p) == xs
  {
    if xs != [] {
      WhereAll(xs[1..], p);
    }
  }

  /** Filtering by `p`, then by `q`, keeps exactly the rows that pass both, in order. */
  lemma {:induction false} WhereThenWhere<T(!new)>(xs: seq<T>, p: T -> bool, q: T -> bool, pq: T -> bool)
    requires forall x :: pq(x) == (p(x) && q(x))
    ensures Where(Where(xs, p), q) == Where(xs, pq)
  {
    if xs != [] {
      WhereThenWhere(xs[1..], p, q, pq);
      if p(xs[0]) {
        assert ([xs[0]] + Where(xs[1..], p))[1..] == Where(xs[1..], p);
      }
    }
  }

  /** The `when` filter keeps relative order. */
  lemma {:induction false} WhenLikePairwise<T(!new)>(xs: seq<T>, term: Value, column: T -> string, R: (T, T) -> bool)
    requires forall i, j :: 0 <= i < j < |xs| ==> R(xs[i], xs[j])
    ensures var r := WhenLike(xs, term, column); r.Some? ==> forall i, j :: 0 <= i < j < |r.value| ==> R(r.value[i], r.value[j])
  {
    if Truthy(term) && !term.List? {
      WherePairwise(xs, LikeFilter(term, column), R);
    }
  }

  /** A request value naming the row with primary key `id` (its `integer` reading). */
  predicate DenotesId(v: Value, id: nat) {
    IsInteger(v) && IntegerOf(v) == id
  }

  /** `Model::find($v)`: the row whose key the value names, if any. */
  function FindById<T(!new)>(xs: seq<T>, key: T -> nat, v: Value): (r: Option<T>)
    ensures r.Some? ==> r.value in xs && DenotesId(v, key(r.value))
    ensures r.None? ==> forall x :: x in xs ==> !DenotesId(v, key(x))
  {
    if xs == [] then None
    else if DenotesId(v, key(xs[0])) then Some(xs[0])
    else FindById(xs[1..], key, v)
  }

  /**
   * What `Model::find($v)` answers: null, one row, or, for an array `$v`
   * (`findMany`), the collection of the rows its elements name, which is
   * truthy even when empty.
   */
  datatype Found<T> = NoRow | Row(row: T) | Rows(rows: seq<T>)

  function Find<T(!new)>(xs: seq<T>, key: T -> nat, v: Value): (r: Found<T>)
    ensures r.Rows? <==> v.List?
    ensures r.Rows? ==> forall x :: x in r.rows <==> x in xs && exists s :: s in v.items && DenotesId(Str(s), key(x))
    ensures r.NoRow? <==> !v.List? && FindById(xs, key, v).None?
    ensures r.Row? ==> FindById(xs, key, v) == Some(r.row)
  {
    if v.List? then Rows(Where(xs, (x: T) => exists s :: s in v.items && DenotesId(Str(s), key(x))))
    else if FindById(xs, key, v).Some? then Row(FindById(xs, key, v).value)
    else NoRow
  }

  /** The rows a `find` result holds: none, the one row, or the collection's rows. */
  function FoundRows<T>(f: Found<T>): seq<T> {
    match f
    case NoRow => []
    case Row(x) => [x]
    case Rows(xs) => xs
  }

  /** The position of the first row with primary key `id`; route model binding answers 404 without one. */
  function PositionOf<T>(xs: seq<T>, key: T -> nat, id: nat): (r: Option<nat>)
    ensures r.Some? ==> r.value < |xs| && key(xs[r.value]) == id
    ensures r.None? ==> forall i :: 0 <= i < |xs| ==> key(xs[i]) != id
  {
    if xs == [] then None
    else if key(xs[0]) == id then Some(0)
    else match PositionOf(xs[1..], key, id)
      case None => None
      case Some(k) => Some(k + 1)
  }

  /**
   * `Model::when($term, like)->paginate(10)`: page `page` of the rows the
   * filter keeps, in table order; an array term that is not empty throws.
   */
  function FilteredPage<T(!new)>(xs: seq<T>, term: Value, column: T -> string, page: Value): (r: Option<seq<T>>)
    ensures r.None? <==> LikeThrows(term)
    ensures r.Some? ==> |r.value| <= PerPage
    ensures r.Some? ==> forall x :: x in r.value ==> x in xs && LikeKeeps(term, column(x))
    ensures !Truthy(term) ==> r == Some(PageOf(xs, CurrentPage(page)))
    ensures Truthy(term) && !term.List? ==> r == Some(PageOf(Where(xs, LikeFilter(term, column)), CurrentPage(page)))
    ensures r.Some? && CurrentPage(page) == 1 && (exists x :: x in xs && LikeKeeps(term, column(x))) ==> r.value != []
  {
    match WhenLike(xs, term, column)
    case None => None
    case Some(kept) =>
      assert forall x :: x in xs && LikeKeeps(term, column(x)) ==> x in kept;
      Some(PageOf(kept, CurrentPage(page)))
  }

  /** `array_column($cases, 'value')`: one entry per element, in order. */
  function Column<C>(cs: seq<C>, f: C -> string): (r: seq<string>)
    ensures |r| == |cs|
    ensures forall i :: 0 <= i < |cs| ==> r[i] == f(cs[i])
  {
    if cs == [] then [] else [f(cs[0])] + Column(cs[1..], f)
  }

  /** `array_column($cases, 'name', 'value')`: later entries overwrite earlier keys. */
  function KeyedColumn<C>(cs: seq<C>, key: C -> string, val: C -> string): map<string, string> {
    if cs == [] then map[]
    else KeyedColumn(cs[..|cs| - 1], key, val)[key(cs[|cs| - 1]) := val(cs[|cs| - 1])]
  }

  lemma {:induction false} KeyedColumnDomain<C>(cs: seq<C>, key: C -> string, val: C -> string)
    ensures KeyedColumn(cs, key, val).Keys == set i | 0 <= i < |cs| :: key(cs[i])
  {
    if cs != [] {
      var init := cs[..|cs| - 1];
      KeyedColumnDomain(init, key, val);
      assert forall i :: 0 <= i < |init| ==> init[i] == cs[i];
    }
  }

  /** With pairwise distinct keys, each key maps to the value of its own entry. */
  lemma {:induction false} KeyedColumnAt<C>(cs: seq<C>, key: C -> string, val: C -> string, i: nat)
    requires i < |cs|
    requires forall a, b :: 0 <= a < b < |cs| ==> key(cs[a]) != key(cs[b])
    ensures key(cs[i]) in KeyedColumn(cs, key, val)
    ensures KeyedColumn(cs, key, val)[key(cs[i])] == val(cs[i])
  {
    if i < |cs| - 1 {
      var init := cs[..|cs| - 1];
      assert init[i] == cs[i];
      KeyedColumnAt(init, key, val, i);
    }
  }

  ghost predicate Descending<T>(xs: seq<T>, key: T -> int) {
    forall i, j :: 0 <= i < j < |xs| ==> key(xs[i]) >= key(xs[j])
  }

  /** Inserts `x` before the first element whose key is not larger. */
  function InsertByKeyDesc<T(!new)>(x: T, xs: seq<T>, key: T -> int): (r: seq<T>)
    ensures multiset(r) == multiset(xs) + multiset{x}
    ensures forall y :: y in r <==> y == x || y in xs
  {
    if xs == [] || key(x) >= key(xs[0]) then [x] + xs
    else
      assert xs == [xs[0]] + xs[1..];
      [xs[0]] + InsertByKeyDesc(x, xs[1..], key)
  }

  lemma {:induction false} InsertByKeyDescSorted<T(!new)>(x: T, xs: seq<T>, key: T -> int)
    requires Descending(xs, key)
    ensures Descending(InsertByKeyDesc(x, xs, key), key)
  {
    if xs != [] && key(x) < key(xs[0]) {
      var rest := InsertByKeyDesc(x, xs[1..], key);
      InsertByKeyDescSorted(x, xs[1..], key);
      forall k | 0 <= k < |rest| ensures key(xs[0]) >= key(rest[k]) {
        assert rest[k] in rest;
        if rest[k] != x {
          var m :| 0 <= m < |xs[1..]| && xs[1..][m] == rest[k];
          assert xs[1 + m] == rest[k];
        }
      }
      assert InsertByKeyDesc(x, xs, key) == [xs[0]] + rest;
    }
  }

  /** `->orderBy(key, 'DESC')`: a permutation of `xs`, keys never increasing. */
  function SortByKeyDesc<T(!new)>(xs: seq<T>, key: T -> int): (r: seq<T>)
    ensures multiset(r) == multiset(xs)
    ensures forall y :: y in r <==> y in xs
    ensures Descending(r, key)
  {
    if xs == [] then []
    else
      assert xs == [xs[0]] + xs[1..];
      InsertByKeyDescSorted(xs[0], SortByKeyDesc(xs[1..], key), key);
      InsertByKeyDesc(xs[0], SortByKeyDesc(xs[1..], key), key)
  }

  ghost predicate StrictlyDescending<T>(xs: seq<T>, key: T -> int) {
    forall i, j :: 0 <= i < j < |xs| ==> key(xs[i]) > key(xs[j])
  }

  lemma {:induction false} InsertByKeyDescStrict<T(!new)>(x: T, xs: seq<T>, key: T -> int)
    requires StrictlyDescending(xs, key)
    requires forall y :: y in xs ==> key(y) != key(x)
    ensures StrictlyDescending(InsertByKeyDesc(x, xs, key), key)
  {
    if xs != [] && key(x) < key(xs[0]) {
      var rest := InsertByKeyDesc(x, xs[1..], key);
      InsertByKeyDescStrict(x, xs[1..], key);
      assert forall k :: 0 <= k < |rest| ==> key(xs[0]) > key(rest[k]) by {
        forall k | 0 <= k < |rest| ensures key(xs[0]) > key(rest[k]) {
          assert rest[k] in rest;
          if rest[k] != x {
            var m :| 0 <= m < |xs[1..]| && xs[1..][m] == rest[k];
            assert xs[1 + m] == rest[k];
          }
        }
      }
    }
  }

  /** With pairwise distinct keys (primary keys), the sorted order is strictly descending. */
  lemma {:induction false} SortByKeyDescStrict<T(!new)>(xs: seq<T>, key: T -> int)
    requires forall i, j :: 0 <= i < j < |xs| ==> key(xs[i]) != key(xs[j])
    ensures StrictlyDescending(SortByKeyDesc(xs, key), key)
  {
    if xs != [] {
      SortByKeyDescStrict(xs[1..], key);
      forall y | y in SortByKeyDesc(xs[1..], key) ensures key(y) != key(xs[0]) {
        var m :| 0 <= m < |xs[1..]| && xs[1..][m] == y;
        assert xs[1 + m] == y;
      }
      InsertByKeyDescStrict(xs[0], SortByKeyDesc(xs[1..], key), key);
    }
  }

  // ---------------------------------------------------------------------------
  // Pagination, ten rows per page

  const PerPage: nat := 10

  /** The paginator's last page: at least 1, and just large enough to hold `total` rows. */
  function LastPage(total: nat): (last: nat)
    ensures last >= 1
    ensures total == 0 ==> last == 1
    ensures total > 0 ==> (last - 1) * PerPage < total <= last * PerPage
  {
    if total == 0 then 1 else (total + PerPage - 1) / PerPage
  }

  /** The page the paginator serves for a `page` query value: a valid integer of at least 1, else 1. */
  function CurrentPage(page: Value): (p: nat)
    ensures p >= 1
    ensures IsInteger(page) && IntegerOf(page) >= 1 ==> p == IntegerOf(page)
    ensures !(IsInteger(page) && IntegerOf(page) >= 1) ==> p == 1
  {
    if IsInteger(page) && IntegerOf(page) >= 1 then IntegerOf(page) else 1
  }

  /** A page number with white space around it is served; one beyond PHP's integer range falls back to page 1. */
  lemma CurrentPageOfText(a: string, n: int, b: string)
    requires forall i :: 0 <= i < |a| ==> IsFilterSpace(a[i])
    requires forall i :: 0 <= i < |b| ==> IsFilterSpace(b[i])
    ensures 1 <= n <= PhpIntMax ==> CurrentPage(Str(a + IntToString(n) + b)) == n
    ensures n > PhpIntMax ==> CurrentPage(Str(a + IntToString(n) + b)) == 1
  {
    IntegerAroundSpaces(a, n, b);
  }

  /** The rows of page `page`, ten per page. */
  function PageOf<T>(xs: seq<T>, page: nat): (r: seq<T>)
    requires page >= 1
    ensures |r| <= PerPage
    ensures forall i :: 0 <= i < |r| ==> (page - 1) * PerPage + i < |xs| && r[i] == xs[(page - 1) * PerPage + i]
    ensures page <= LastPage(|xs|) && xs != [] ==> r != []
    ensures (page - 1) * PerPage + PerPage <= |xs| ==> |r| == PerPage
  {
    var start := (page - 1) * PerPage;
    if start >= |xs| then []
    else if start + PerPage <= |xs| then xs[start..start + PerPage]
    else xs[start..]
  }

  /** A page of a list ordered newest first is ordered newest first. */
  lemma PageOfDescending<T>(xs: seq<T>, page: nat, key: T -> int)
    requires page >= 1 && Descending(xs, key)
    ensures Descending(PageOf(xs, page), key)
    ensures forall y :: y in PageOf(xs, page) ==> y in xs
  {
    var r := PageOf(xs, page);
    var start := (page - 1) * PerPage;
    forall i, j | 0 <= i < j < |r| ensures key(r[i]) >= key(r[j]) {
      assert r[i] == xs[start + i] && r[j] == xs[start + j];
    }
    forall y | y in r ensures y in xs {
      var i :| 0 <= i < |r| && r[i] == y;
      assert xs[start + i] == y;
    }
  }

  /** A page of a strictly ordered list is strictly ordered. */
  lemma PageOfStrictlyDescending<T>(xs: seq<T>, page: nat, key: T -> int)
    requires page >= 1 && StrictlyDescending(xs, key)
    ensures StrictlyDescending(PageOf(xs, page), key)
  {
    var r := PageOf(xs, page);
    var start := (page - 1) * PerPage;
    forall i, j | 0 <= i < j < |r| ensures key(r[i]) > key(r[j]) {
      assert r[i] == xs[start + i] && r[j] == xs[start + j];
    }
  }

  /**
   * `($page <= $lastPage) ? $page : $lastPage` after a delete: a page that still
   * exists is kept (with no lower bound), a later one becomes the last page,
   * and no page stays no page.
   */
  function RedirectPage(page: Option<int>, remaining: nat): (r: Option<int>)
    ensures page.None? <==> r.None?
    ensures page.Some? ==> r.value <= LastPage(remaining)
    ensures page.Some? && page.value <= LastPage(remaining) ==> r == page
    ensures page.Some? && page.value > LastPage(remaining) ==> r == Some(LastPage(remaining))
  {
    match page
    case None => None
    case Some(p) => if p <= LastPage(remaining) then Some(p) else Some(LastPage(remaining))
  }
}
