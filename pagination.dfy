/**
 * Query-string pagination: `parseInt(x, 10) || default`, clamped, and the
 * paginated envelope `{data, total, page, limit, pages}`.
 */
module Pagination {
  import opened Wrappers
  import opened JsText

  datatype PaginationParams = PaginationParams(page: int, limit: int)

  datatype PaginatedResponse<T> = PaginatedResponse(data: seq<T>, total: int, page: int, limit: int, pages: int)

  const DefaultPage := 1
  const DefaultLimit := 10
  const MaxLimit := 100

  /** The value of a string of decimal digits. */
  function DigitsValue(ds: string): (n: nat)
    requires forall i :: 0 <= i < |ds| ==> IsDigit(ds[i])
  {
    if ds == [] then 0
    else
      assert IsDigit(ds[|ds| - 1]);
      DigitsValue(ds[..|ds| - 1]) * 10 + (ds[|ds| - 1] as int - '0' as int)
  }

  /** Length of the longest prefix of `s` made of decimal digits. */
  function DigitPrefix(s: string): (n: nat)
    ensures n <= |s|
    ensures forall i :: 0 <= i < n ==> IsDigit(s[i])
    ensures n < |s| ==> !IsDigit(s[n])
  {
    if s != [] && IsDigit(s[0]) then 1 + DigitPrefix(s[1..]) else 0
  }

  /**
   * `parseInt(s, 10)`: skip leading whitespace, read an optional sign, then the
   * longest run of decimal digits; `None` stands for `NaN` (no digit at all).
   * The parameter is absent (`undefined`, which parses as `NaN`) when the query has no such key.
   */
  function ParseInt(s: Option<string>): (r: Option<int>)
    ensures s.None? ==> r.None?
    ensures s.Some? && s.value != [] && IsDigit(s.value[0]) ==> r.Some? && r.value >= 0
    ensures r.Some? && r.value < 0 ==> TrimStart(s.value) != [] && TrimStart(s.value)[0] == '-'
  {
    if s.None? then None
    else
      var t := TrimStart(s.value);
      var negative := t != [] && t[0] == '-';
      var body := if t != [] && (t[0] == '-' || t[0] == '+') then t[1..] else t;
      var n := DigitPrefix(body);
      if n == 0 then None
      else
        var digits := body[..n];
        assert forall i :: 0 <= i < |digits| ==> digits[i] == body[i];
        var v: int := DigitsValue(digits);
        Some(if negative then -v else v)
  }

  /** `x || d` for the result of `parseInt`: `NaN` and `0` are falsy and give `d`. */
  function OrDefault(x: Option<int>, d: int): (r: int)
    ensures r == d <==> x.None? || x.value == 0 || x.value == d
  {
    if x.None? || x.value == 0 then d else x.value
  }

  function Max(a: int, b: int): int { if a >= b then a else b }
  function Min(a: int, b: int): int { if a <= b then a else b }

  /** `parsePagination(query)` for the `page` and `limit` query parameters. */
  function ParsePagination(page: Option<string>, limit: Option<string>): (r: PaginationParams)
    ensures r.page >= 1
    ensures 1 <= r.limit <= MaxLimit
  {
    PaginationParams(
      Max(1, OrDefault(ParseInt(page), DefaultPage)),
      Min(MaxLimit, Max(1, OrDefault(ParseInt(limit), DefaultLimit))))
  }

  /** The page is the parsed value when it is positive, and 1 otherwise (absent, `NaN`, zero or negative). */
  lemma PageIsPositiveParseOrOne(page: Option<string>, limit: Option<string>)
    ensures var p := ParseInt(page);
      ParsePagination(page, limit).page == if p.Some? && p.value >= 1 then p.value else 1
  {
  }

  /**
   * The limit is 10 when the parameter is absent, not a number or zero;
   * otherwise the parsed value clamped to [1, 100], so a negative limit gives 1.
   */
  lemma LimitRule(page: Option<string>, limit: Option<string>)
    ensures var l := ParseInt(limit);
      ParsePagination(page, limit).limit ==
        if l.None? || l.value == 0 then DefaultLimit
        else if l.value < 1 then 1
        else if l.value > MaxLimit then MaxLimit
        else l.value
  {
  }

  /** `parseInt` reads the leading digits and ignores whatever follows them. */
  lemma {:induction false} ParseIntLeadingDigits(ds: string, rest: string)
    requires ds != [] && forall i :: 0 <= i < |ds| ==> IsDigit(ds[i])
    requires rest != [] ==> !IsDigit(rest[0])
    ensures ParseInt(Some(ds + rest)) == Some(DigitsValue(ds))
  {
    var s := ds + rest;
    assert TrimStart(s) == s;
    DigitPrefixOfDigits(ds, rest);
    assert s[..|ds|] == ds;
  }

  lemma {:induction false} DigitPrefixOfDigits(ds: string, rest: string)
    requires forall i :: 0 <= i < |ds| ==> IsDigit(ds[i])
    requires rest != [] ==> !IsDigit(rest[0])
    ensures DigitPrefix(ds + rest) == |ds|
  {
    if ds != [] {
      assert (ds + rest)[1..] == ds[1..] + rest;
      DigitPrefixOfDigits(ds[1..], rest);
    } else {
      assert ds + rest == rest;
    }
  }

  /** A leading minus sign negates the digits that follow it. */
  lemma {:induction false} ParseIntNegative(ds: string, rest: string)
    requires ds != [] && forall i :: 0 <= i < |ds| ==> IsDigit(ds[i])
    requires rest != [] ==> !IsDigit(rest[0])
    ensures ParseInt(Some("-" + ds + rest)) == Some(0 - DigitsValue(ds) as int)
  {
    var s := "-" + ds + rest;
    assert TrimStart(s) == s;
    assert s[1..] == ds + rest;
    DigitPrefixOfDigits(ds, rest);
    assert (ds + rest)[..|ds|] == ds;
  }

  /** A string that starts with neither whitespace, a sign nor a digit is `NaN`. */
  lemma NotANumber(s: string)
    requires s != [] && !IsWhitespace(s[0]) && !IsDigit(s[0]) && s[0] != '-' && s[0] != '+'
    ensures ParseInt(Some(s)) == None
  {
    assert TrimStart(s) == s;
  }

  lemma DigitsValueSmall()
    ensures DigitsValue("0") == 0 && DigitsValue("5") == 5 && DigitsValue("7") == 7
    ensures DigitsValue("500") == 500
  {
    assert "0"[..0] == "" && "5"[..0] == "" && "7"[..0] == "";
    assert "500"[..2] == "50" && "50"[..1] == "5";
  }

  /** The parses the examples below rely on. */
  lemma ParseExamples()
    ensures ParseInt(None) == None
    ensures ParseInt(Some("abc")) == None && ParseInt(Some("x")) == None
    ensures ParseInt(Some("0")) == Some(0)
    ensures ParseInt(Some("-5")) == Some(-5)
    ensures ParseInt(Some("500")) == Some(500)
    ensures ParseInt(Some("7abc")) == Some(7)
  {
    NotANumber("abc");
    NotANumber("x");
    ParseZero();
    ParseMinusFive("-5");
    ParseFiveHundred();
    ParseSevenAbc();
  }

  lemma ParseZero() ensures ParseInt(Some("0")) == Some(0) {
    DigitsValueSmall();
    ParseIntLeadingDigits("0", "");
    assert "0" + "" == "0";
  }

  lemma ParseMinusFive(s: string)
    requires s == "-5"
    ensures ParseInt(Some(s)) == Some(-5)
  {
    DigitsValueSmall();
    ParseIntNegative("5", "");
    assert "-" + "5" + "" == s;
  }

  lemma ParseFiveHundred() ensures ParseInt(Some("500")) == Some(500) {
    DigitsValueSmall();
    ParseIntLeadingDigits("500", "");
    assert "500" + "" == "500";
  }

  lemma ParseSevenAbc() ensures ParseInt(Some("7abc")) == Some(7) {
    DigitsValueSmall();
    ParseIntLeadingDigits("7", "abc");
    assert "7" + "abc" == "7abc";
  }

  /** An absent, non-numeric or zero limit falls to 10; "-5" is clamped to 1, "500" to 100; "7abc" reads as 7. */
  lemma ExamplesLimit()
    ensures ParsePagination(None, None).limit == 10
    ensures ParsePagination(None, Some("abc")).limit == 10
    ensures ParsePagination(None, Some("0")).limit == 10
    ensures ParsePagination(None, Some("-5")).limit == 1
    ensures ParsePagination(None, Some("500")).limit == 100
    ensures ParsePagination(None, Some("7abc")).limit == 7
  {
    ParseExamples();
    LimitRule(None, None);
    LimitRule(None, Some("abc"));
    LimitRule(None, Some("0"));
    LimitRule(None, Some("-5"));
    LimitRule(None, Some("500"));
    LimitRule(None, Some("7abc"));
  }

  /** An absent, zero, non-numeric or negative page gives 1; "7abc" reads as 7. */
  lemma ExamplesPage()
    ensures ParsePagination(None, None).page == 1
    ensures ParsePagination(Some("0"), None).page == 1
    ensures ParsePagination(Some("x"), None).page == 1
    ensures ParsePagination(Some("-5"), None).page == 1
    ensures ParsePagination(Some("7abc"), None).page == 7
  {
    ParseExamples();
    PageIsPositiveParseOrOne(None, None);
    PageIsPositiveParseOrOne(Some("0"), None);
    PageIsPositiveParseOrOne(Some("x"), None);
    PageIsPositiveParseOrOne(Some("-5"), None);
    PageIsPositiveParseOrOne(Some("7abc"), None);
  }

  /** `Math.ceil(total / limit)` for a non-negative total and a positive limit. */
  function CeilDiv(total: nat, limit: int): (pages: nat)
    requires limit >= 1
    ensures pages * limit >= total
    ensures total > 0 ==> (pages - 1) * limit < total
    ensures pages == 0 <==> total == 0
  {
    (total + limit - 1) / limit
  }

  /** `createPaginatedResponse(data, total, page, limit)`. */
  function CreatePaginatedResponse<T>(data: seq<T>, total: nat, page: int, limit: int): (r: PaginatedResponse<T>)
    requires limit >= 1
    ensures r.data == data && r.total == total && r.page == page && r.limit == limit
    ensures r.pages * limit >= total && (total > 0 ==> (r.pages - 1) * limit < total)
    ensures r.pages == 0 <==> total == 0
  {
    PaginatedResponse(data, total, page, limit, CeilDiv(total, limit))
  }
}
