/**
 * The pagination item renderer shared by the list pages: it decodes the
 * HTML entities in a paginator link's label and turns the link into a
 * previous or next arrow, a numbered page link, an ellipsis, or nothing.
 *
 * "Numeric" follows JavaScript's `Number(text)` being a number: the text,
 * with JavaScript white space trimmed from both ends, is empty or a
 * StrNumericLiteral (section 7.1.4.1.1 of ECMA-262): a decimal literal
 * with an optional sign, fraction and exponent, `Infinity`, or a 0x/0o/0b
 * integer.
 */
module PaginationItem {
  import opened Common

  // ---------------------------------------------------------------------------
  // decodeLabel

  /** The first position at which `pat` occurs in `s`, if any. */
  function FirstOccurrence(s: string, pat: string): (r: Option<nat>)
    ensures r.Some? ==> OccursAt(pat, s, r.value) && forall j: nat :: j < r.value ==> !OccursAt(pat, s, j)
    ensures r.None? ==> forall j: nat :: !OccursAt(pat, s, j)
    decreases |s|
  {
    if |pat| > |s| then None
    else if s[..|pat|] == pat then Some(0)
    else
      var r := FirstOccurrence(s[1..], pat);
      ShiftOccurrence(s, pat);
      if r.None? then None else Some(r.value + 1)
  }

  /** An occurrence past the first place is an occurrence in the tail, one place earlier. */
  lemma ShiftOccurrence(s: string, pat: string)
    requires |s| > 0
    ensures OccursAt(pat, s, 0) <==> |pat| <= |s| && s[..|pat|] == pat
    ensures forall j: nat :: j >= 1 ==> (OccursAt(pat, s, j) <==> OccursAt(pat, s[1..], j - 1))
  {
    forall j: nat | j >= 1
      ensures OccursAt(pat, s, j) <==> OccursAt(pat, s[1..], j - 1)
    {
      if j + |pat| <= |s| {
        var a, b := s[j..j + |pat|], s[1..][j - 1..j - 1 + |pat|];
        assert |a| == |b| && forall t :: 0 <= t < |a| ==> a[t] == s[j + t] == b[t];
        assert a == b;
      }
    }
  }

  /**
   * JavaScript's `replace` with a string pattern: only the first occurrence
   * of `pat` is replaced by `rep`; a string without one is returned as it is.
   */
  function ReplaceFirst(s: string, pat: string, rep: string): (r: string)
    ensures (forall j: nat :: !OccursAt(pat, s, j)) ==> r == s
    ensures forall i: nat :: OccursAt(pat, s, i) && (forall j: nat :: j < i ==> !OccursAt(pat, s, j)) ==>
      r == s[..i] + rep + s[i + |pat|..]
  {
    match FirstOccurrence(s, pat)
    case None => s
    case Some(i) =>
      assert forall k: nat :: OccursAt(pat, s, k) && (forall j: nat :: j < k ==> !OccursAt(pat, s, j)) ==> k == i;
      s[..i] + rep + s[i + |pat|..]
  }

  /** A pattern at the front is replaced, and a later copy of it stays. */
  lemma ReplaceAtFront(pat: string, rest: string, rep: string)
    ensures ReplaceFirst(pat + rest, pat, rep) == rep + rest
  {
    var s := pat + rest;
    assert s[..|pat|] == pat;
    assert FirstOccurrence(s, pat) == Some(0);
    assert s[..0] + rep + s[|pat|..] == rep + rest;
  }

  /** Replacing a pattern by something no longer never lengthens the text. */
  lemma ReplaceFirstShortens(s: string, pat: string, rep: string)
    requires |rep| <= |pat|
    ensures |ReplaceFirst(s, pat, rep)| <= |s|
  {
    match FirstOccurrence(s, pat)
    case None =>
    case Some(i) =>
      assert forall k: nat :: OccursAt(pat, s, k) && (forall j: nat :: j < k ==> !OccursAt(pat, s, j)) ==> k == i;
  }

  function LeftQuote(): string { "&laquo;" }
  function RightQuote(): string { "&raquo;" }

  /** `decodeLabel`: the first `&laquo;` becomes '«', then the first `&raquo;` becomes '»'. */
  function DecodeLabel(raw: string): (d: string)
    ensures |d| <= |raw|
  {
    ReplaceFirstShortens(raw, LeftQuote(), "«");
    ReplaceFirstShortens(ReplaceFirst(raw, LeftQuote(), "«"), RightQuote(), "»");
    ReplaceFirst(ReplaceFirst(raw, LeftQuote(), "«"), RightQuote(), "»")
  }

  /** A label without either entity is shown as it is. */
  lemma DecodePlain(raw: string)
    requires forall j: nat :: !OccursAt(LeftQuote(), raw, j)
    requires forall j: nat :: !OccursAt(RightQuote(), raw, j)
    ensures DecodeLabel(raw) == raw
  {
  }

  /** Text starting with a character other than '&' has an entity occurrence only where its tail has one. */
  lemma OccursAfterHead(c: char, rest: string, pat: string)
    requires |pat| > 0 && pat[0] == '&' && c != '&'
    ensures forall j: nat :: OccursAt(pat, [c] + rest, j) <==> j > 0 && OccursAt(pat, rest, j - 1)
  {
    var s := [c] + rest;
    assert s[1..] == rest;
    ShiftOccurrence(s, pat);
    forall j: nat | OccursAt(pat, s, j) ensures j > 0 {
      assert s[j] == pat[0];
    }
    forall j: nat | j > 0 ensures OccursAt(pat, s, j) <==> OccursAt(pat, rest, j - 1) {
      assert (j - 1) + 1 == j;
    }
  }

  /**
   * Only the first of two `&laquo;` is decoded: the label after the first
   * entity is left as it is, a second copy included, when it holds no
   * `&raquo;`.
   */
  lemma DecodeOnlyFirstLeftQuote(rest: string)
    requires forall j: nat :: !OccursAt(RightQuote(), rest, j)
    ensures DecodeLabel(LeftQuote() + rest) == "«" + rest
  {
    ReplaceAtFront(LeftQuote(), rest, "«");
    OccursAfterHead('«', rest, RightQuote());
    assert "«" + rest == ['«'] + rest;
  }

  // ---------------------------------------------------------------------------
  // Number(text) is not NaN

  predicate IsHexDigit(c: char) {
    IsDigit(c) || 'a' <= c <= 'f' || 'A' <= c <= 'F'
  }

  predicate IsOctalDigit(c: char) {
    '0' <= c <= '7'
  }

  predicate IsBinaryDigit(c: char) {
    c == '0' || c == '1'
  }

  /** A 0x, 0o or 0b literal with at least one digit of its base. */
  predicate IsNonDecimalLiteral(t: string) {
    |t| >= 3 && t[0] == '0' &&
    ((t[1] in "xX" && forall i :: 2 <= i < |t| ==> IsHexDigit(t[i])) ||
     (t[1] in "oO" && forall i :: 2 <= i < |t| ==> IsOctalDigit(t[i])) ||
     (t[1] in "bB" && forall i :: 2 <= i < |t| ==> IsBinaryDigit(t[i])))
  }

  /** The position of the first character `c` accepts, or |s| when there is none. */
  function FindChar(s: string, c: char, d: char): (k: nat)
    ensures k <= |s|
    ensures k < |s| ==> s[k] == c || s[k] == d
    ensures forall i :: 0 <= i < k ==> s[i] != c && s[i] != d
  {
    if s == [] then 0
    else if s[0] == c || s[0] == d then 0
    else FindChar(s[1..], c, d) + 1
  }

  /** Digits with at most one '.', and at least one digit: `1`, `1.`, `1.5`, `.5`. */
  predicate IsMantissa(m: string) {
    var k := FindChar(m, '.', '.');
    AllDigits(m[..k]) &&
    (k == |m| ==> |m| >= 1) &&
    (k < |m| ==> AllDigits(m[k + 1..]) && |m| >= 2)
  }

  /** An exponent part: empty, or 'e' or 'E', an optional sign and at least one digit. */
  predicate IsExponentPart(e: string) {
    e == [] ||
    (e[0] in "eE" &&
     var d := if |e| >= 2 && e[1] in "+-" then e[2..] else e[1..];
     |d| >= 1 && AllDigits(d))
  }

  /** `Infinity`, or a mantissa followed by an optional exponent. */
  predicate IsUnsignedDecimal(u: string) {
    u == "Infinity" ||
    (var k := FindChar(u, 'e', 'E'); IsMantissa(u[..k]) && IsExponentPart(u[k..]))
  }

  predicate IsDecimalLiteral(t: string) {
    var u := if |t| >= 1 && t[0] in "+-" then t[1..] else t;
    IsUnsignedDecimal(u)
  }

  /** `!isNaN(Number(text))`: blank text reads as 0, any other must be a numeric literal once trimmed. */
  predicate IsNumeric(text: string) {
    var t := Trim(text, IsJsSpace);
    t == [] || IsNonDecimalLiteral(t) || IsDecimalLiteral(t)
  }

  /** Text that neither starts nor ends with white space is its own trim. */
  lemma TrimUnspaced(s: string)
    requires |s| > 0 && !IsJsSpace(s[0]) && !IsJsSpace(s[|s| - 1])
    ensures Trim(s, IsJsSpace) == s
  {
    var a := TrimStart(s, IsJsSpace);
    assert a == s;
    var b := TrimEnd(a, IsJsSpace);
    assert b == a;
  }

  /** A page number as the paginator writes it is numeric. */
  lemma NumberIsNumeric(n: nat)
    ensures IsNumeric(NatToString(n))
  {
    var s := NatToString(n);
    assert IsDigit(s[0]) && IsDigit(s[|s| - 1]);
    TrimUnspaced(s);
    DigitsAreDecimal(s);
    assert s[0] !in "+-";
  }

  /** A non-empty run of digits is an unsigned decimal literal: a mantissa without '.' and no exponent. */
  lemma DigitsAreDecimal(s: string)
    requires |s| >= 1 && AllDigits(s)
    ensures IsUnsignedDecimal(s)
  {
    assert forall i :: 0 <= i < |s| ==> s[i] != 'e' && s[i] != 'E' && s[i] != '.';
    var k := FindChar(s, 'e', 'E');
    assert k == |s|;
    assert s[..k] == s && s[k..] == [];
    var j := FindChar(s, '.', '.');
    assert j == |s| && s[..j] == s;
    assert IsMantissa(s);
  }

  /** Blank text is numeric, as `Number('')` is 0. */
  lemma BlankIsNumeric(s: string)
    requires forall i :: 0 <= i < |s| ==> IsJsSpace(s[i])
    ensures IsNumeric(s)
  {
    TrimEmpty(s, IsJsSpace);
  }

  /** Text opening with two dots and holding no exponent mark is no numeric literal. */
  lemma TwoDotsNoLiteral(t: string)
    requires |t| >= 2 && t[0] == '.' && t[1] == '.'
    requires forall i :: 0 <= i < |t| ==> t[i] != 'e' && t[i] != 'E'
    ensures !IsNonDecimalLiteral(t) && !IsDecimalLiteral(t)
  {
    assert t != "Infinity" by { assert "Infinity"[0] == 'I'; }
    var k := FindChar(t, 'e', 'E');
    assert k == |t| && t[..k] == t;
    assert FindChar(t, '.', '.') == 0;
    assert !IsDigit(t[1..][0]);
  }

  /** The ellipsis is not numeric: a '.' needs a digit beside it. */
  lemma EllipsisNotNumeric()
    ensures !IsNumeric("...")
  {
    var s := "...";
    assert s[0] == '.' && s[1] == '.' && s[2] == '.';
    TwoDotsNotNumeric(s);
  }

  /** Text opening with two dots, ending in no white space and holding no exponent mark is not numeric. */
  lemma TwoDotsNotNumeric(s: string)
    requires |s| >= 2 && s[0] == '.' && s[1] == '.' && !IsJsSpace(s[|s| - 1])
    requires forall i :: 0 <= i < |s| ==> s[i] != 'e' && s[i] != 'E'
    ensures !IsNumeric(s)
  {
    TrimUnspaced(s);
    TwoDotsNoLiteral(s);
  }

  // ---------------------------------------------------------------------------
  // RenderPaginationItem

  /** One entry of the paginator's `links`: a target (null when there is none), a label and whether it is the current page. */
  datatype Link = Link(url: Option<string>, caption: string, active: bool)

  /** What the renderer returns; `NoItem` is null. */
  datatype Item =
    | Previous(href: string, disabled: bool)
    | Next(href: string, disabled: bool)
    | PageLink(key: string, href: string, isActive: bool, text: string)
    | Ellipsis(key: string)
    | NoItem

  function PreviousLabel(): string { "&laquo; Previous" }
  function NextLabel(): string { "Next &raquo;" }

  /** `link.url || '#'`: a missing or empty url leaves the item pointing nowhere. */
  function Href(url: Option<string>): (h: string)
    ensures h != ""
    ensures url.Some? && url.value != "" ==> h == url.value
    ensures url.None? || url.value == "" ==> h == "#"
  {
    if url.Some? && url.value != "" then url.value else "#"
  }

  /** `!link.url`: the arrow is greyed out and unclickable without a target. */
  predicate NoTarget(url: Option<string>) {
    url.None? || url.value == ""
  }

  /**
   * `RenderPaginationItem`: the raw-label tests for the arrows come first,
   * then the decoded label decides between a numbered link, an ellipsis and
   * nothing.
   */
  function Render(link: Link, index: nat): (item: Item)
    ensures item.Previous? <==> link.caption == PreviousLabel()
    ensures item.Previous? ==> item == Previous(Href(link.url), NoTarget(link.url))
    ensures item.Next? <==> link.caption == NextLabel()
    ensures item.Next? ==> item == Next(Href(link.url), NoTarget(link.url))
    ensures item.PageLink? <==>
      link.caption != PreviousLabel() && link.caption != NextLabel() && IsNumeric(DecodeLabel(link.caption))
    ensures item.PageLink? ==>
      item == PageLink(DecodeLabel(link.caption), Href(link.url), link.active, DecodeLabel(link.caption))
    ensures item.Ellipsis? <==>
      link.caption != PreviousLabel() && link.caption != NextLabel() && !IsNumeric(DecodeLabel(link.caption)) &&
      DecodeLabel(link.caption) == "..."
    ensures item.Ellipsis? ==> item.key == "ellipsis-" + NatToString(index)
  {
    var decoded := DecodeLabel(link.caption);
    if link.caption == PreviousLabel() then Previous(Href(link.url), NoTarget(link.url))
    else if link.caption == NextLabel() then Next(Href(link.url), NoTarget(link.url))
    else if IsNumeric(decoded) then PageLink(decoded, Href(link.url), link.active, decoded)
    else if decoded == "..." then Ellipsis("ellipsis-" + NatToString(index))
    else NoItem
  }

  /** A digit string holds no entity, so it is its own decoding. */
  lemma DigitsDecodeToThemselves(s: string)
    requires AllDigits(s)
    ensures DecodeLabel(s) == s
  {
    forall j: nat ensures !OccursAt(LeftQuote(), s, j) && !OccursAt(RightQuote(), s, j) {
      if j + 7 <= |s| {
        assert s[j..j + 7][0] == s[j] && IsDigit(s[j]);
      }
    }
    DecodePlain(s);
  }

  /** The paginator's page-number link becomes a numbered link showing the number, active on the current page. */
  lemma PageNumberRenders(url: Option<string>, n: nat, active: bool, index: nat)
    ensures Render(Link(url, NatToString(n), active), index) ==
      PageLink(NatToString(n), Href(url), active, NatToString(n))
  {
    var s := NatToString(n);
    DigitsDecodeToThemselves(s);
    NumberIsNumeric(n);
    assert s != PreviousLabel() && s != NextLabel() by {
      assert IsDigit(s[0]);
    }
  }

  /** The paginator's "..." separator becomes an ellipsis keyed by its position. */
  lemma SeparatorRenders(url: Option<string>, active: bool, index: nat)
    ensures Render(Link(url, "...", active), index) == Ellipsis("ellipsis-" + NatToString(index))
  {
    var s := "...";
    assert forall j: nat :: !OccursAt(LeftQuote(), s, j) && !OccursAt(RightQuote(), s, j);
    DecodePlain(s);
    EllipsisNotNumeric();
  }

  /** A link with an empty label is numeric to `Number`, so it renders as a numbered link with no text. */
  lemma EmptyLabelRendersAsPage(url: Option<string>, active: bool, index: nat)
    ensures Render(Link(url, "", active), index) == PageLink("", Href(url), active, "")
  {
    DecodePlain("");
    BlankIsNumeric("");
  }
}
