/** app/api/v1/datas.go: the time stamps of `CreateData` and the query normalisation of
    `GetDatas`. */
module DatasApi {
  import opened Common
  import opened Models
  import GoLib
  import DataQuery

  /** `CreateData` up to the store call. `body` is the decoded request (`None` when it could not
      be parsed, answered with 400); `createdNow` and `updatedNow` are the two separate
      `time.Now()` readings. The result is the record handed to `db.Q.CreateData`. */
  method CreateData(body: Option<Data>, createdNow: DateTime, updatedNow: DateTime) returns (toStore: Option<Data>)
    ensures body.None? <==> toStore.None?
    ensures toStore.Some? ==>
              var d := toStore.value;
              d.createdAt == createdNow && d.updatedAt == updatedNow &&
              d.id == body.value.id && d.number == body.value.number && d.counter == body.value.counter
  {
    if body.None? {
      return None;
    }
    var data := body.value;
    data := data.(createdAt := createdNow);
    data := data.(updatedAt := updatedNow);
    return Some(data);
  }

  /** The `o` parameter: surrounding spaces removed, nothing else (a leading '-' stays). */
  function OrderParam(query: map<string, string>): (order: string)
    ensures TrimmedMiddle(if "o" in query then query["o"] else "", " ", order)
  {
    var o := if "o" in query then query["o"] else "";
    assert GoLib.Query(query, "o", "") == o;
    GoLib.Trim(GoLib.Query(query, "o", ""), " ")
  }

  /** The `limit` parameter: spaces and '-' trimmed from both ends, then read with
      `strconv.ParseInt(·, 10, 64)` whose error is ignored. */
  function LimitParam(query: map<string, string>): (limit: int)
    ensures 0 <= limit <= GoLib.MaxInt64
  {
    GoLib.ParseInt(GoLib.Trim(GoLib.Query(query, "limit", "0"), " -")).value
  }

  /** The options `GetDatas` passes to the query. */
  function ListOptionsOf(query: map<string, string>): (opts: DataQuery.ListOptions)
    ensures opts.limit >= 0
  {
    DataQuery.ListOptions(LimitParam(query), OrderParam(query))
  }

  /** The default limit "0" reads as 0. */
  lemma DefaultLimitIsZero()
    ensures GoLib.ParseInt(GoLib.Trim("0", " -")) == GoLib.Parsed(0, None)
  {
    TrimBothKeeps("0", " -");
    assert GoLib.Decimal(0) == "0";
    GoLib.ParseIntDecimal(0);
  }

  /** A missing `limit` means no limit. */
  lemma LimitAbsent(query: map<string, string>)
    requires "limit" !in query
    ensures LimitParam(query) == 0
  {
    assert GoLib.Query(query, "limit", "0") == "0";
    DefaultLimitIsZero();
  }

  /** A limit written in decimal, with any spaces and dashes around it, reads back as itself:
      "-20", "20-" and " 20 " all give 20. */
  lemma LimitDecimal(query: map<string, string>, n: nat, pre: string, post: string)
    requires n <= GoLib.MaxInt64
    requires AllIn(pre, " -") && AllIn(post, " -")
    requires "limit" in query && query["limit"] == pre + GoLib.Decimal(n) + post
    ensures LimitParam(query) == n
  {
    var digits := GoLib.Decimal(n);
    var s := pre + digits + post;
    assert s != "";
    TrimOfPadded(pre, digits, post, " -");
    GoLib.ParseIntDecimal(n);
  }

  /** A limit made only of spaces and dashes trims to nothing, which is not a number: 0. */
  lemma LimitBlank(query: map<string, string>)
    requires "limit" in query && AllIn(query["limit"], " -")
    ensures LimitParam(query) == 0
  {
    if query["limit"] == "" {
      assert GoLib.Query(query, "limit", "0") == "0";
      DefaultLimitIsZero();
    } else {
      TrimLeftAllCut(query["limit"], " -");
      assert GoLib.Trim(query["limit"], " -") == [];
    }
  }

  /** A limit whose trimmed text reaches a non-digit before its digits overflow has its
      syntax error ignored and gives 0 (no limit). */
  lemma LimitNotANumber(query: map<string, string>, p: int)
    requires "limit" in query
    requires var t := GoLib.Trim(query["limit"], " -");
             t != [] && GoLib.StopsAtNonDigit(GoLib.Unsigned(t), p)
    ensures LimitParam(query) == 0
  {
    assert GoLib.Query(query, "limit", "0") == query["limit"];
    GoLib.ParseIntSyntax(GoLib.Trim(query["limit"], " -"), p);
  }

  /** "abc" is not a decimal number. */
  lemma LettersAreNotANumber()
    ensures GoLib.ParseInt(GoLib.Trim("abc", " -")).err == Some(GoLib.ErrSyntax)
  {
    TrimBothKeeps("abc", " -");
  }

  /** "2 0" is not a decimal number: inner spaces are not trimmed. */
  lemma InnerSpaceIsNotANumber()
    ensures GoLib.ParseInt(GoLib.Trim("2 0", " -")).err == Some(GoLib.ErrSyntax)
  {
    TrimBothKeeps("2 0", " -");
    assert GoLib.ScanDigits("2 0", 1, 2).err == Some(GoLib.ErrSyntax);
  }

  /** An ordering without surrounding spaces is passed on unchanged, a leading '-' included. */
  lemma OrderKept(query: map<string, string>)
    requires "o" in query && query["o"] != []
    requires query["o"][0] != ' ' && query["o"][|query["o"]| - 1] != ' '
    ensures OrderParam(query) == query["o"]
  {
    TrimBothKeeps(query["o"], " ");
  }

  /** Only the surrounding spaces of an ordering are removed: padded with spaces on either
      side, it reads as itself, a leading '-' included. */
  lemma OrderTrimmed(query: map<string, string>, pre: string, mid: string, post: string)
    requires AllIn(pre, " ") && AllIn(post, " ")
    requires mid != [] && mid[0] != ' ' && mid[|mid| - 1] != ' '
    requires "o" in query && query["o"] == pre + mid + post
    ensures OrderParam(query) == mid
  {
    var o := pre + mid + post;
    assert o != [] && GoLib.Query(query, "o", "") == o;
    TrimOfPadded(pre, mid, post, " ");
    assert GoLib.Trim(o, " ") == TrimBoth(o, " ");
  }

  /** A missing `o` means no ordering. */
  lemma OrderAbsent(query: map<string, string>)
    requires "o" !in query
    ensures OrderParam(query) == ""
  {
  }

  /** Surrounding spaces never hide a leading '-' from the query. */
  lemma OrderKeepsDash(query: map<string, string>, pre: string, rest: string)
    requires AllIn(pre, " ")
    requires "o" in query && query["o"] == pre + "-" + rest
    ensures OrderParam(query) != [] && OrderParam(query)[0] == '-'
  {
    var s := pre + "-" + rest;
    assert s == pre + ("-" + rest);
    PaddedLeft(pre, "-" + rest, " ");
    var r := TrimRight("-" + rest, " ");
    assert r != [] && r[0] == '-';
    assert GoLib.Trim(s, " ") == r;
  }
}
