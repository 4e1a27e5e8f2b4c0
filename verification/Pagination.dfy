/** Pages of a list, the parameters they are asked with, and the metadata returned beside them. */
module Pagination {
  import opened Arithmetic
  import opened Options
  import opened Sequences

  // ---- parseInt(text, 10) ----

  /** The white space and line terminators of ECMAScript. */
  predicate IsSpace(c: char) {
    var n := c as int;
    n in {0x09, 0x0A, 0x0B, 0x0C, 0x0D, 0x20, 0xA0, 0x1680, 0x2028, 0x2029, 0x202F, 0x205F, 0x3000, 0xFEFF} || 0x2000 <= n <= 0x200A
  }

  function TrimStart(s: string): string {
    if s != "" && IsSpace(s[0]) then TrimStart(s[1..]) else s
  }

  function LeadingDigits(s: string): string {
    if s != "" && IsDigit(s[0]) then [s[0]] + LeadingDigits(s[1..]) else ""
  }

  function ValueOf(digits: string): nat
    requires forall c :: c in digits ==> IsDigit(c)
  {
    if digits == "" then 0
    else
      assert IsDigit(digits[|digits| - 1]);
      var digit := digits[|digits| - 1] as int - '0' as int;
      10 * ValueOf(digits[..|digits| - 1]) + digit
  }

  lemma {:induction false} LeadingDigitsAreDigits(s: string)
    ensures forall c :: c in LeadingDigits(s) ==> IsDigit(c)
  {
    if s != "" && IsDigit(s[0]) {
      LeadingDigitsAreDigits(s[1..]);
    }
  }

  /** `None` is NaN. */
  function ParseInt(s: string): Option<int> {
    var t := TrimStart(s);
    var unsigned := if t != "" && t[0] in {'-', '+'} then t[1..] else t;
    var digits := LeadingDigits(unsigned);
    LeadingDigitsAreDigits(unsigned);
    if digits == "" then None
    else
      var n: int := ValueOf(digits);
      Some(if t[0] == '-' then -n else n)
  }

  /** `n || fallback`, where NaN and zero are falsy. */
  function OrElse(n: Option<int>, fallback: int): int {
    if n.None? || n.value == 0 then fallback else n.value
  }

  function Max(a: int, b: int): int {
    if a > b then a else b
  }

  function Min(a: int, b: int): int {
    if a < b then a else b
  }

  datatype Params = Params(page: int, perPage: int)

  function ParsePaginationParams(page: Option<string>, perPage: Option<string>): (r: Params)
    ensures 1 <= r.page && 1 <= r.perPage <= 100
  {
    Params(
      Max(1, OrElse(ParseInt(if page.Some? then page.value else "1"), 1)),
      Min(100, Max(1, OrElse(ParseInt(if perPage.Some? then perPage.value else "20"), 20))))
  }

  function Decimal(n: nat): (s: string)
    ensures s != "" && forall c :: c in s ==> IsDigit(c)
  {
    if n < 10 then [n as char + '0'] else Decimal(n / 10) + [(n % 10) as char + '0']
  }

  lemma {:induction false} ValueOfDecimal(n: nat)
    ensures ValueOf(Decimal(n)) == n
  {
    if n >= 10 {
      ValueOfDecimal(n / 10);
      assert Decimal(n)[..|Decimal(n)| - 1] == Decimal(n / 10);
    } else {
      assert Decimal(n)[..0] == "";
    }
  }

  lemma {:induction false} LeadingDigitsOf(digits: string, rest: string)
    requires forall c :: c in digits ==> IsDigit(c)
    requires rest == "" || !IsDigit(rest[0])
    ensures LeadingDigits(digits + rest) == digits
  {
    if digits == "" {
      assert digits + rest == rest;
    } else {
      LeadingDigitsOf(digits[1..], rest);
      assert (digits + rest)[1..] == digits[1..] + rest;
      assert digits == [digits[0]] + digits[1..];
    }
  }

  /** A number written in decimal is read back, whatever follows its digits. */
  lemma ParseIntReadsDecimal(n: nat, rest: string)
    requires rest == "" || !IsDigit(rest[0])
    ensures ParseInt(Decimal(n) + rest) == Some(n)
    ensures ParseInt("-" + Decimal(n) + rest) == Some(0 - n)
  {
    var d := Decimal(n);
    var s, m := d + rest, "-" + d + rest;
    assert s[0] == d[0] && IsDigit(d[0]);
    assert TrimStart(s) == s && TrimStart(m) == m;
    assert m[1..] == s;
    LeadingDigitsOf(d, rest);
    ValueOfDecimal(n);
  }

  /** Zero falls back to the default like NaN does, but a negative number becomes 1. */
  lemma ParamsHonoured(n: nat, rest: string, other: Option<string>)
    requires rest == "" || !IsDigit(rest[0])
    ensures ParsePaginationParams(Some(Decimal(n) + rest), other).page == if n == 0 then 1 else n
    ensures ParsePaginationParams(other, Some(Decimal(n) + rest)).perPage == if n == 0 then 20 else if n > 100 then 100 else n
    ensures n > 0 ==> ParsePaginationParams(Some("-" + Decimal(n) + rest), other).page == 1
    ensures n > 0 ==> ParsePaginationParams(other, Some("-" + Decimal(n) + rest)).perPage == 1
  {
    ParseIntReadsDecimal(n, rest);
  }

  lemma {:induction false} TrimStartOf(space: string, s: string)
    requires forall c :: c in space ==> IsSpace(c)
    requires s != "" && !IsSpace(s[0])
    ensures TrimStart(space + s) == s
  {
    if space == "" {
      assert space + s == s;
    } else {
      TrimStartOf(space[1..], s);
      assert (space + s)[1..] == space[1..] + s;
      assert space[0] in space;
    }
  }

  /** White space and a plus sign before a number are skipped. */
  lemma ParseIntSkips(space: string, n: nat, rest: string)
    requires forall c :: c in space ==>
               || 0x09 <= c as int <= 0x0D || 0x2000 <= c as int <= 0x200A
               || c as int in {0x20, 0xA0, 0x1680, 0x2028, 0x2029, 0x202F, 0x205F, 0x3000, 0xFEFF}
    requires rest == "" || !IsDigit(rest[0])
    ensures ParseInt(space + (Decimal(n) + rest)) == Some(n)
    ensures ParseInt(space + ("+" + (Decimal(n) + rest))) == Some(n)
  {
    var s := Decimal(n) + rest;
    assert s[0] == Decimal(n)[0] && IsDigit(s[0]);
    TrimStartOf(space, s);
    TrimStartOf(space, "+" + s);
    assert ("+" + s)[1..] == s;
    LeadingDigitsOf(Decimal(n), rest);
    ValueOfDecimal(n);
  }

  /** A text that does not start like a number counts as absent. */
  lemma ParamsGarbage(text: string, other: Option<string>)
    requires text == "" || (!IsSpace(text[0]) && !IsDigit(text[0]) && text[0] != '-' && text[0] != '+')
    ensures ParsePaginationParams(Some(text), other).page == 1
    ensures ParsePaginationParams(other, Some(text)).perPage == 20
  {
  }

  lemma ParamsDefaults()
    ensures ParsePaginationParams(None, None) == Params(1, 20)
  {
    ParseIntReadsDecimal(1, "");
    ParseIntReadsDecimal(20, "");
    assert Decimal(2) == "2";
    assert Decimal(1) + "" == "1" && Decimal(20) + "" == "20";
  }

  // ---- pages ----

  /** `skip: (page - 1) * perPage, take: perPage`. */
  function Page<T>(l: seq<T>, page: nat, perPage: nat): seq<T>
    requires page >= 1
  {
    var rest := Skip(l, (page - 1) * perPage);
    Take(rest, perPage)
  }

  function Skip<T>(l: seq<T>, n: nat): seq<T> {
    if n <= |l| then l[n..] else []
  }

  function Take<T>(l: seq<T>, n: nat): seq<T> {
    if n <= |l| then l[..n] else l
  }

  datatype Meta = Meta(total: nat, page: int, perPage: int, totalPages: nat, hasNext: bool, hasPrevious: bool)

  /** `Math.ceil(total / perPage)`. */
  function TotalPages(total: nat, perPage: nat): nat
    requires perPage >= 1
  {
    (total + perPage - 1) / perPage
  }

  function BuildPaginationMeta(total: nat, page: nat, perPage: nat): Meta
    requires perPage >= 1
  {
    var totalPages := TotalPages(total, perPage);
    Meta(total, page, perPage, totalPages, page < totalPages, page > 1)
  }

  /** `totalPages` is the least number of pages that holds everything. */
  lemma TotalPagesIsLeast(total: nat, perPage: nat, n: nat)
    requires perPage >= 1
    ensures n >= TotalPages(total, perPage) <==> n * perPage >= total
  {
    var x := total + perPage - 1;
    var q := x / perPage;
    assert x == q * perPage + x % perPage;
    if n >= q {
      MulMonotone(q, n, perPage);
    } else {
      MulMonotone(n + 1, q, perPage);
      assert (n + 1) * perPage == n * perPage + perPage;
    }
  }

  /** The pages 1 to `n` one after another. */
  function PagesUpTo<T>(l: seq<T>, n: nat, perPage: nat): seq<T> {
    if n == 0 then [] else PagesUpTo(l, n - 1, perPage) + Page(l, n, perPage)
  }

  lemma {:induction false} PagesArePrefix<T>(l: seq<T>, n: nat, perPage: nat)
    ensures PagesUpTo(l, n, perPage) == Take(l, n * perPage)
  {
    if n > 0 {
      PagesArePrefix(l, n - 1, perPage);
      assert n * perPage == (n - 1) * perPage + perPage;
    }
  }

  /** A page is the stretch of the list that starts after `(page - 1) * perPage` rows. */
  lemma PageIs<T>(l: seq<T>, page: nat, perPage: nat, skip: nat)
    requires page >= 1 && skip == (page - 1) * perPage
    ensures Page(l, page, perPage) == if skip >= |l| then [] else if skip + perPage <= |l| then l[skip..skip + perPage] else l[skip..]
  {
  }

  /** The pages put together are the list, and those that are counted are exactly the ones with rows. */
  lemma PagesPartition<T>(l: seq<T>, perPage: nat, page: nat)
    requires perPage >= 1 && page >= 1
    ensures PagesUpTo(l, TotalPages(|l|, perPage), perPage) == l
    ensures Page(l, page, perPage) != [] <==> page <= TotalPages(|l|, perPage)
    ensures page < TotalPages(|l|, perPage) ==> |Page(l, page, perPage)| == perPage
  {
    var n, skip := TotalPages(|l|, perPage), (page - 1) * perPage;
    TotalPagesIsLeast(|l|, perPage, page - 1);
    TotalPagesIsLeast(|l|, perPage, page);
    assert page * perPage == skip + perPage;
    PageIs(l, page, perPage, skip);
    AllPages(l, perPage, n);
  }

  lemma AllPages<T>(l: seq<T>, perPage: nat, n: nat)
    requires perPage >= 1 && n == TotalPages(|l|, perPage)
    ensures PagesUpTo(l, n, perPage) == l
  {
    TotalPagesIsLeast(|l|, perPage, n);
    PagesArePrefix(l, n, perPage);
  }

  /** A row is on one page only, the one its place in the list gives. */
  lemma EachRowOnOnePage<T(!new)>(l: seq<T>, i: nat, perPage: nat, page: nat)
    requires NoRepeats(l) && i < |l| && perPage >= 1 && page >= 1
    ensures l[i] in Page(l, page, perPage) <==> page == i / perPage + 1
  {
    var skip := (page - 1) * perPage;
    RowOnPage(l, i, perPage, page, skip);
    PlaceIs(i, perPage, page - 1, skip);
  }

  lemma PlaceIs(i: nat, perPage: nat, q: nat, skip: nat)
    requires perPage >= 1 && skip == q * perPage
    ensures skip <= i < skip + perPage <==> q == i / perPage
  {
    Quotient(i, perPage, q);
  }

  lemma RowOnPage<T(!new)>(l: seq<T>, i: nat, perPage: nat, page: nat, skip: nat)
    requires NoRepeats(l) && i < |l| && page >= 1 && skip == (page - 1) * perPage
    ensures l[i] in Page(l, page, perPage) <==> skip <= i < skip + perPage
  {
    PageIs(l, page, perPage, skip);
    if skip < |l| {
      InStretch(l, i, skip, if skip + perPage <= |l| then skip + perPage else |l|);
    }
  }

  lemma InStretch<T(!new)>(l: seq<T>, i: nat, lo: nat, hi: nat)
    requires NoRepeats(l) && i < |l| && lo <= hi <= |l|
    ensures l[i] in l[lo..hi] <==> lo <= i < hi
  {
    var p := l[lo..hi];
    if lo <= i < hi {
      assert p[i - lo] == l[i];
    }
    if l[i] in p {
      var k :| 0 <= k < |p| && p[k] == l[i];
      assert l[lo + k] == l[i];
    }
  }

  /** `hasNext` says exactly that the next page has rows; `hasPrevious` is right as long as the page is at most one past the end. */
  lemma MetaTells<T>(l: seq<T>, page: nat, perPage: nat)
    requires perPage >= 1 && page >= 1
    ensures var m := BuildPaginationMeta(|l|, page, perPage);
            && (m.hasNext <==> Page(l, page + 1, perPage) != [])
            && ((m.hasPrevious <==> page > 1 && Page(l, page - 1, perPage) != []) <==> page == 1 || page <= m.totalPages + 1)
  {
    PagesPartition(l, perPage, page + 1);
    if page > 1 {
      PagesPartition(l, perPage, page - 1);
    }
  }
}
