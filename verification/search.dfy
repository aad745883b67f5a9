/** The user search server of the coverage exercise
    (03_net1/99_hw/coverage/server.go): it validates the query parameters,
    filters the users of the XML dataset by a substring, orders them and
    returns one page. The dataset file and its XML decoding are a parameter
    (the decoded users, or the error reading or decoding them). */
module UserSearch {
  import opened Results
  import opened Text
  import opened Sorting
  import opened Collections

  // ---------------------------------------------------------------------------
  // Constants and data
  // ---------------------------------------------------------------------------

  /** The limit a request carries when the client did not set one. */
  const LimitNotSet := -1

  /** The field names, used both as JSON keys and as `order_field` values. */
  const FieldId := "Id"
  const FieldName := "Name"
  const FieldAge := "Age"
  const FieldAbout := "About"
  const FieldGender := "Gender"

  /** The `order_by` values. They are declared in the client, which is not
      part of this model; only their being three distinct integers matters. */
  const OrderByAsc := -1
  const OrderByAsIs := 0
  const OrderByDesc := 1

  const InvalidOrderMessage := "некорректно задано поле order"
  const InvalidLimitMessage := "некорректно задано поле limit"
  const InvalidOffsetMessage := "некорректно задано поле offset"
  const AccessDeniedMessage := "access Denied"

  /** HTTP status codes the server answers with. */
  const StatusOK := 200
  const StatusBadRequest := 400
  const StatusUnauthorized := 401
  const StatusInternalServerError := 500

  datatype UserXMLData = UserXMLData(
    id: int, firstName: string, lastName: string, age: int, about: string, gender: string)

  /** The JSON object a user is serialised as. */
  datatype UserJson = UserJson(id: int, name: string, age: int, about: string, gender: string)

  /** A validated request. `orderBy` is one of the three order constants
      and `orderField` one of Name, Id and Age. */
  datatype SearchRequest = SearchRequest(
    limit: int, offset: int, query: string, orderField: string, orderBy: int)

  /** Why parameter processing answered 400: a bad `order_field`, or one of
      the three messages for `order_by`, `limit` and `offset`. */
  datatype ParamError = BadOrderField | Invalid(message: string)

  /** The URL query: each key with its values, as net/url parses it. */
  type Query = map<string, seq<string>>

  /** url.Values.Get: the first value of the key, "" when there is none. */
  function Get(q: Query, key: string): string {
    if key in q && |q[key]| > 0 then q[key][0] else ""
  }

  // ---------------------------------------------------------------------------
  // Serialisation
  // ---------------------------------------------------------------------------

  /** The name the server shows, filters on and sorts by. */
  function FullName(u: UserXMLData): string {
    u.firstName + " " + u.lastName
  }

  /** MarshalJSON: the first and last names joined by one space under
      "Name"; the other fields carried over unchanged. */
  function ToJson(u: UserXMLData): (j: UserJson)
    ensures j.id == u.id && j.age == u.age && j.about == u.about && j.gender == u.gender
    ensures |j.name| == |u.firstName| + 1 + |u.lastName|
    ensures j.name[..|u.firstName|] == u.firstName
    ensures j.name[|u.firstName|] == ' '
    ensures j.name[|u.firstName| + 1..] == u.lastName
  {
    var name := FullName(u);
    assert name[..|u.firstName|] == u.firstName;
    assert name[|u.firstName| + 1..] == u.lastName;
    UserJson(u.id, name, u.age, u.about, u.gender)
  }

  // ---------------------------------------------------------------------------
  // Ordering
  // ---------------------------------------------------------------------------

  /** cmp.Compare on integers. */
  function CompareInt(a: int, b: int): int {
    if a < b then -1 else if a > b then 1 else 0
  }

  /** strings.Compare. */
  function CompareStr(a: string, b: string): int {
    if a == b then 0 else if StrLe(a, b) then -1 else 1
  }

  /** The comparison function handed to slices.SortFunc: by ID, by age or
      (for every other field) by full name, negated for descending order. */
  function Compare(field: string, orderBy: int, a: UserXMLData, b: UserXMLData): int {
    var c :=
      if field == FieldId then CompareInt(a.id, b.id)
      else if field == FieldAge then CompareInt(a.age, b.age)
      else CompareStr(FullName(a), FullName(b));
    if orderBy == OrderByDesc then -c else c
  }

  /** `a` may come before `b` in the sorted result. */
  function Before(field: string, orderBy: int): (UserXMLData, UserXMLData) -> bool {
    (a, b) => Compare(field, orderBy, a, b) <= 0
  }

  /** The order a field and direction select, in plain terms. */
  lemma BeforeMeaning(field: string, orderBy: int, a: UserXMLData, b: UserXMLData)
    ensures field == FieldId && orderBy != OrderByDesc ==> (Before(field, orderBy)(a, b) <==> a.id <= b.id)
    ensures field == FieldId && orderBy == OrderByDesc ==> (Before(field, orderBy)(a, b) <==> a.id >= b.id)
    ensures field == FieldAge && orderBy != OrderByDesc ==> (Before(field, orderBy)(a, b) <==> a.age <= b.age)
    ensures field == FieldAge && orderBy == OrderByDesc ==> (Before(field, orderBy)(a, b) <==> a.age >= b.age)
    ensures field != FieldId && field != FieldAge && orderBy != OrderByDesc ==>
              (Before(field, orderBy)(a, b) <==> StrLe(FullName(a), FullName(b)))
    ensures field != FieldId && field != FieldAge && orderBy == OrderByDesc ==>
              (Before(field, orderBy)(a, b) <==> StrLe(FullName(b), FullName(a)))
  {
    StrLeIsTotalOrder();
  }

  /** Every field and direction orders users totally and transitively. */
  lemma BeforeIsPreorder(field: string, orderBy: int)
    ensures TotalPreorder(Before(field, orderBy))
  {
    var le := Before(field, orderBy);
    StrLeIsTotalOrder();
    forall a, b ensures le(a, b) || le(b, a) {
      BeforeMeaning(field, orderBy, a, b);
      BeforeMeaning(field, orderBy, b, a);
    }
    forall a, b, c | le(a, b) && le(b, c) ensures le(a, c) {
      BeforeMeaning(field, orderBy, a, b);
      BeforeMeaning(field, orderBy, b, c);
      BeforeMeaning(field, orderBy, a, c);
    }
  }

  /** OrderUsers: as-is leaves the users untouched; otherwise the result
      holds the same users, ascending by the chosen key, or descending when
      the order is OrderByDesc. Any field other than Id and Age sorts by full
      name. */
  function OrderUsers(users: seq<UserXMLData>, field: string, orderBy: int): (r: seq<UserXMLData>)
    ensures orderBy == OrderByAsIs ==> r == users
    ensures multiset(r) == multiset(users)
    ensures orderBy != OrderByAsIs ==> SortedBy(r, Before(field, orderBy))
    ensures orderBy != OrderByAsIs && orderBy != OrderByDesc && field == FieldId ==>
              forall i, j :: 0 <= i < j < |r| ==> r[i].id <= r[j].id
    ensures orderBy == OrderByDesc && field == FieldId ==>
              forall i, j :: 0 <= i < j < |r| ==> r[i].id >= r[j].id
    ensures orderBy != OrderByAsIs && orderBy != OrderByDesc && field == FieldAge ==>
              forall i, j :: 0 <= i < j < |r| ==> r[i].age <= r[j].age
    ensures orderBy == OrderByDesc && field == FieldAge ==>
              forall i, j :: 0 <= i < j < |r| ==> r[i].age >= r[j].age
    ensures orderBy != OrderByAsIs && orderBy != OrderByDesc && field != FieldId && field != FieldAge ==>
              forall i, j :: 0 <= i < j < |r| ==> StrLe(FullName(r[i]), FullName(r[j]))
    ensures orderBy == OrderByDesc && field != FieldId && field != FieldAge ==>
              forall i, j :: 0 <= i < j < |r| ==> StrLe(FullName(r[j]), FullName(r[i]))
  {
    if orderBy == OrderByAsIs then users
    else
      BeforeIsPreorder(field, orderBy);
      var r := SortBy(users, Before(field, orderBy));
      assert forall i, j :: 0 <= i < j < |r| ==> Before(field, orderBy)(r[i], r[j]);
      forall i, j | 0 <= i < j < |r| {
        BeforeMeaning(field, orderBy, r[i], r[j]);
      }
      r
  }

  /** Sorting by ID, when IDs are distinct, gives one result whatever the
      order of the dataset. */
  lemma OrderByIdIgnoresInputOrder(a: seq<UserXMLData>, b: seq<UserXMLData>, orderBy: int)
    requires multiset(a) == multiset(b)
    requires forall i, j :: 0 <= i < j < |a| ==> a[i].id != a[j].id
    requires orderBy != OrderByAsIs
    ensures OrderUsers(a, FieldId, orderBy) == OrderUsers(b, FieldId, orderBy)
  {
    var le := Before(FieldId, orderBy);
    BeforeIsPreorder(FieldId, orderBy);
    assert AntisymmetricOn(multiset(a), le) by {
      forall x, y | x in multiset(a) && y in multiset(a) && le(x, y) && le(y, x)
        ensures x == y
      {
        BeforeMeaning(FieldId, orderBy, x, y);
        BeforeMeaning(FieldId, orderBy, y, x);
        var i :| 0 <= i < |a| && a[i] == x;
        var j :| 0 <= j < |a| && a[j] == y;
        assert !(i < j) && !(j < i);
      }
    }
    SortedUnique(OrderUsers(a, FieldId, orderBy), OrderUsers(b, FieldId, orderBy), le);
  }

  // ---------------------------------------------------------------------------
  // Filtering and paging
  // ---------------------------------------------------------------------------

  /** A user matches a non-empty query that occurs in the full name or in
      the about text. */
  predicate Matches(u: UserXMLData, query: string) {
    Contains(FullName(u), query) || Contains(u.about, query)
  }

  /** The users a query selects, in dataset order: all of them for an empty
      query. */
  function Selected(users: seq<UserXMLData>, query: string): (r: seq<UserXMLData>)
    ensures |r| <= |users|
    ensures forall u :: u in r <==> u in users && (query == "" || Matches(u, query))
  {
    if query == "" then users
    else Filter(users, u => Matches(u, query))
  }

  /** `r` is the page of `s` at `offset`: empty past the end, otherwise
      the elements from `offset` on, as many as remain or `limit` of them
      when the limit is set and smaller. */
  ghost predicate IsPage<T>(r: seq<T>, s: seq<T>, offset: int, limit: int) {
    && (offset >= |s| ==> r == [])
    && (offset < |s| ==>
          |r| == (if limit != LimitNotSet && limit < |s| - offset then limit else |s| - offset))
    && forall i :: 0 <= i < |r| ==> 0 <= offset + i < |s| && r[i] == s[offset + i]
  }

  /** The page of `s` starting at `offset` and at most `limit` long, the
      whole rest when the limit is not set; empty past the end. The source
      demands a non-negative offset and a limit of at least LimitNotSet,
      since its slice expression fails otherwise (ApplyQueryAsWritten). */
  function Page<T>(s: seq<T>, offset: int, limit: int): (r: seq<T>)
    requires offset >= 0 && limit >= LimitNotSet
    ensures offset >= |s| ==> r == []
    ensures offset < |s| && limit == LimitNotSet ==> r == s[offset..]
    ensures offset < |s| && limit != LimitNotSet ==>
              |r| == (if limit < |s| - offset then limit else |s| - offset)
    ensures forall i :: 0 <= i < |r| ==> offset + i < |s| && r[i] == s[offset + i]
    ensures IsPage(r, s, offset, limit)
  {
    var lim := if limit == LimitNotSet then |s| else limit;
    if offset < |s| && lim <= |s| - offset then s[offset..offset + lim]
    else if offset < |s| then s[offset..]
    else []
  }

  /** The page is the only sequence that is a page of `s` at `offset`
      with `limit`: the description pins every element. */
  lemma OnlyOnePage<T>(r: seq<T>, s: seq<T>, offset: int, limit: int)
    requires offset >= 0 && limit >= LimitNotSet
    requires IsPage(r, s, offset, limit)
    ensures r == Page(s, offset, limit)
  {
    var p := Page(s, offset, limit);
    assert |r| == |p|;
    assert forall i :: 0 <= i < |r| ==> r[i] == s[offset + i] == p[i];
  }

  /** Consecutive pages tile the sequence: the page at `offset` followed by
      everything after it gives back the rest of the sequence. */
  lemma PagesTile<T>(s: seq<T>, offset: int, limit: int)
    requires 0 <= offset <= |s| && limit >= 0
    ensures Page(s, offset, limit) + Page(s, offset + limit, LimitNotSet) == s[offset..]
  {
    var p := Page(s, offset, limit);
    if offset + limit < |s| {
      assert p == s[offset..offset + limit];
    }
  }

  /** The paging the tests exercise on the 35-user dataset: offset 33
      with limit 40 gives the last two, offset 34 the last one, offset 35
      nothing. */
  lemma PagingAtTheEnd<T>(s: seq<T>)
    requires |s| == 35
    ensures Page(s, 33, 40) == [s[33], s[34]]
    ensures Page(s, 34, 40) == [s[34]]
    ensures Page(s, 35, 40) == []
  {
  }

  /** ApplyQueryToUsers: the users matching the query, ordered, then paged.
      The result is a window of the ordered selection, so every user in it
      is in the dataset and matches the query; with no offset and no limit
      it holds the whole selection. */
  function ApplyQueryToUsers(req: SearchRequest, users: seq<UserXMLData>): (r: seq<UserXMLData>)
    requires req.offset >= 0 && req.limit >= LimitNotSet
    ensures IsPage(r, OrderUsers(Selected(users, req.query), req.orderField, req.orderBy), req.offset, req.limit)
    ensures forall i :: 0 <= i < |r| ==> r[i] in users && (req.query == "" || Matches(r[i], req.query))
    ensures req.offset == 0 && req.limit == LimitNotSet ==>
              multiset(r) == multiset(Selected(users, req.query))
  {
    var ordered := OrderUsers(Selected(users, req.query), req.orderField, req.orderBy);
    PageOfSelection(users, req.query, ordered, req.offset, req.limit);
    Page(ordered, req.offset, req.limit)
  }

  /** With no offset and no limit the page is the whole sequence. */
  lemma WholePage<T>(s: seq<T>)
    ensures Page(s, 0, LimitNotSet) == s
  {
    if |s| > 0 {
      assert s[0..] == s;
    }
  }

  /** Every user of a page of a rearranged selection is a selected user,
      and the page without offset or limit is the whole selection again. */
  lemma PageOfSelection(users: seq<UserXMLData>, query: string, ordered: seq<UserXMLData>, offset: int, limit: int)
    requires multiset(ordered) == multiset(Selected(users, query))
    requires offset >= 0 && limit >= LimitNotSet
    ensures var r := Page(ordered, offset, limit);
            forall i :: 0 <= i < |r| ==> r[i] in users && (query == "" || Matches(r[i], query))
    ensures offset == 0 && limit == LimitNotSet ==>
              multiset(Page(ordered, offset, limit)) == multiset(Selected(users, query))
  {
    var r := Page(ordered, offset, limit);
    assert forall i :: 0 <= i < |r| ==> r[i] in ordered;
    SameMembers(ordered, Selected(users, query));
    if offset == 0 && limit == LimitNotSet {
      WholePage(ordered);
    }
  }

  // ---------------------------------------------------------------------------
  // Query-parameter processing
  // ---------------------------------------------------------------------------

  /** The number a parameter holds: the default when absent, otherwise
      what strconv.Atoi reads, or the error message when it cannot. */
  function IntParam(q: Query, key: string, default: int, message: string): (r: Result<int, ParamError>)
    ensures Get(q, key) == "" ==> r == Ok(default)
    ensures Get(q, key) != "" ==> (r.Ok? <==> Atoi(Get(q, key)).Ok?)
    ensures Get(q, key) != "" && r.Ok? ==> r.value == Atoi(Get(q, key)).value
    ensures r.Err? ==> r.error == Invalid(message)
  {
    var s := Get(q, key);
    if s == "" then Ok(default)
    else match Atoi(s)
      case Err(_) => Err(Invalid(message))
      case Ok(v) => Ok(v)
  }

  /** `order_field` names one of the sortable fields; absent means Name. */
  predicate KnownField(q: Query) {
    Get(q, "order_field") in {"", FieldName, FieldId, FieldAge}
  }

  /** `order_by` is absent, or reads as one of the three order constants. */
  predicate OrderAccepted(q: Query) {
    Get(q, "order_by") == ""
    || (Atoi(Get(q, "order_by")).Ok? && Atoi(Get(q, "order_by")).value in {OrderByAsc, OrderByAsIs, OrderByDesc})
  }

  /** The parameter is absent or strconv.Atoi reads it. */
  predicate ParsesIfPresent(q: Query, key: string) {
    Get(q, key) == "" || Atoi(Get(q, key)).Ok?
  }

  /** ProccesQueryParams as written: `order_field` defaults to Name and
      must be Name, Id or Age; `order_by` defaults to as-is and must parse to
      an order constant; `limit` and `offset` must parse when present. Any
      integer passes for the limit and the offset. */
  function ProcessQueryParamsAsWritten(q: Query): (r: Result<SearchRequest, ParamError>)
    ensures !KnownField(q) <==> r == Err(BadOrderField)
    ensures KnownField(q) && !OrderAccepted(q) ==> r == Err(Invalid(InvalidOrderMessage))
    ensures KnownField(q) && OrderAccepted(q) && !ParsesIfPresent(q, "limit") ==>
              r == Err(Invalid(InvalidLimitMessage))
    ensures KnownField(q) && OrderAccepted(q) && ParsesIfPresent(q, "limit") && !ParsesIfPresent(q, "offset") ==>
              r == Err(Invalid(InvalidOffsetMessage))
    ensures r.Ok? <==>
              KnownField(q) && OrderAccepted(q) && ParsesIfPresent(q, "limit") && ParsesIfPresent(q, "offset")
    ensures r.Ok? ==> r.value.orderField == (if Get(q, "order_field") == "" then FieldName else Get(q, "order_field"))
    ensures r.Ok? ==> r.value.orderBy in {OrderByAsc, OrderByAsIs, OrderByDesc}
    ensures r.Ok? ==> r.value.query == Get(q, "query")
    ensures r.Ok? && Get(q, "order_by") == "" ==> r.value.orderBy == OrderByAsIs
    ensures r.Ok? && Get(q, "order_by") != "" ==> r.value.orderBy == Atoi(Get(q, "order_by")).value
    ensures r.Ok? && Get(q, "limit") == "" ==> r.value.limit == LimitNotSet
    ensures r.Ok? && Get(q, "limit") != "" ==> r.value.limit == Atoi(Get(q, "limit")).value
    ensures r.Ok? && Get(q, "offset") == "" ==> r.value.offset == 0
    ensures r.Ok? && Get(q, "offset") != "" ==> r.value.offset == Atoi(Get(q, "offset")).value
  {
    var field := if Get(q, "order_field") == "" then FieldName else Get(q, "order_field");
    if field != FieldName && field != FieldId && field != FieldAge then Err(BadOrderField)
    else match IntParam(q, "order_by", OrderByAsIs, InvalidOrderMessage)
      case Err(e) => Err(e)
      case Ok(order) =>
        if order != OrderByAsc && order != OrderByAsIs && order != OrderByDesc then
          Err(Invalid(InvalidOrderMessage))
        else match IntParam(q, "limit", LimitNotSet, InvalidLimitMessage)
          case Err(e) => Err(e)
          case Ok(limit) =>
            match IntParam(q, "offset", 0, InvalidOffsetMessage)
            case Err(e) => Err(e)
            case Ok(offset) => Ok(SearchRequest(limit, offset, Get(q, "query"), field, order))
  }

  /** A request the server can page without failing: its limit is set or
      LimitNotSet and its offset is not negative. */
  predicate Pageable(req: SearchRequest) {
    req.offset >= 0 && req.limit >= LimitNotSet
  }

  /** ProccesQueryParams with the range checks the paging needs: the
      written validation, and a negative offset or a limit below
      LimitNotSet answered with the offset or limit message. */
  function ProcessQueryParams(q: Query): (r: Result<SearchRequest, ParamError>)
    ensures r.Ok? ==> Pageable(r.value)
    ensures r.Ok? <==> ProcessQueryParamsAsWritten(q).Ok? && Pageable(ProcessQueryParamsAsWritten(q).value)
    ensures r.Ok? ==> r == ProcessQueryParamsAsWritten(q)
    ensures ProcessQueryParamsAsWritten(q).Err? ==> r == ProcessQueryParamsAsWritten(q)
    ensures r.Err? && ProcessQueryParamsAsWritten(q).Ok? ==>
              r.error == (if ProcessQueryParamsAsWritten(q).value.limit < LimitNotSet
                          then Invalid(InvalidLimitMessage) else Invalid(InvalidOffsetMessage))
  {
    match ProcessQueryParamsAsWritten(q)
    case Err(e) => Err(e)
    case Ok(req) =>
      if req.limit < LimitNotSet then Err(Invalid(InvalidLimitMessage))
      else if req.offset < 0 then Err(Invalid(InvalidOffsetMessage))
      else Ok(req)
  }

  /** The query a client sends for a request: every parameter written
      with %d or as is. */
  function QueryOf(req: SearchRequest): Query {
    map["limit" := [IntToString(req.limit)], "offset" := [IntToString(req.offset)],
        "query" := [req.query], "order_field" := [req.orderField],
        "order_by" := [IntToString(req.orderBy)]]
  }

  /** Processing the query a client sends for a pageable request with a
      known field and order gives back that request. */
  lemma ProcessQueryOf(req: SearchRequest)
    requires req.orderField in {FieldName, FieldId, FieldAge}
    requires req.orderBy in {OrderByAsc, OrderByAsIs, OrderByDesc}
    requires Pageable(req) && req.limit <= MaxInt64 && req.offset <= MaxInt64
    ensures ProcessQueryParams(QueryOf(req)) == Ok(req)
  {
    var q := QueryOf(req);
    assert Get(q, "limit") == IntToString(req.limit);
    assert Get(q, "offset") == IntToString(req.offset);
    assert Get(q, "order_by") == IntToString(req.orderBy);
    assert Get(q, "order_field") == req.orderField;
    assert Get(q, "query") == req.query;
    AtoiIntToString(req.limit);
    AtoiIntToString(req.offset);
    AtoiIntToString(req.orderBy);
  }

  /** Every request the validation accepts is the one the client's
      canonical query for it yields: the query determines the request only
      through the values strconv.Atoi reads. */
  lemma AcceptedQueryIsCanonical(q: Query)
    requires ProcessQueryParams(q).Ok?
    ensures ProcessQueryParams(QueryOf(ProcessQueryParams(q).value)) == ProcessQueryParams(q)
  {
    ProcessQueryOf(ProcessQueryParams(q).value);
  }

  /** Only the first values of the five parameters matter: two queries that
      agree on them are processed alike. */
  lemma OnlyParametersMatter(q1: Query, q2: Query)
    requires Get(q1, "order_field") == Get(q2, "order_field") && Get(q1, "order_by") == Get(q2, "order_by")
    requires Get(q1, "limit") == Get(q2, "limit") && Get(q1, "offset") == Get(q2, "offset")
    requires Get(q1, "query") == Get(q2, "query")
    ensures ProcessQueryParamsAsWritten(q1) == ProcessQueryParamsAsWritten(q2)
    ensures ProcessQueryParams(q1) == ProcessQueryParams(q2)
  {
  }

  // ---------------------------------------------------------------------------
  // The paging as written
  // ---------------------------------------------------------------------------

  /** Go's int on a 64-bit platform: the sum wraps around. */
  function Wrap64(x: int): (r: int)
    ensures MinInt64 <= r <= MaxInt64
    ensures MinInt64 <= x <= MaxInt64 ==> r == x
  {
    (x - MinInt64) % 0x1_0000_0000_0000_0000 + MinInt64
  }

  /** A slice expression either yields its result or panics. */
  datatype Sliced<T> = Done(value: T) | Panicked

  /** `s[lo:hi]` on a slice whose capacity is its length: it panics unless
      0 <= lo <= hi <= len(s). */
  function Slice<T>(s: seq<T>, lo: int, hi: int): (r: Sliced<seq<T>>)
    ensures r.Done? <==> 0 <= lo <= hi <= |s|
    ensures r.Done? ==> |r.value| == hi - lo
  {
    if 0 <= lo <= hi <= |s| then Done(s[lo..hi]) else Panicked
  }

  /** The requests the unchecked paging of `n` elements may fail on: a
      negative offset, a limit below LimitNotSet, or an end index that does
      not fit in 64 bits. */
  predicate OutOfRange(offset: int, limit: int, n: int) {
    offset < 0 || limit < LimitNotSet || offset + limit > MaxInt64
    || (limit == LimitNotSet && offset + n > MaxInt64)
  }

  /** Page as written: no range check on the offset or the limit, and
      `offset+limit` computed in 64-bit arithmetic. */
  function PageAsWritten<T>(s: seq<T>, offset: int, limit: int): (r: Sliced<seq<T>>)
    ensures r.Panicked? ==> OutOfRange(offset, limit, |s|)
  {
    var lim := if limit == LimitNotSet then |s| else limit;
    var end := Wrap64(offset + lim);
    if offset < |s| && end <= |s| then Slice(s, offset, end)
    else if offset < |s| then Slice(s, offset, |s|)
    else Done([])
  }

  /** Within range the written paging and the checked one agree. */
  lemma PageAsWrittenInRange<T>(s: seq<T>, offset: int, limit: int)
    requires offset >= 0 && limit >= LimitNotSet && offset + limit <= MaxInt64
    requires limit == LimitNotSet ==> offset + |s| <= MaxInt64
    ensures PageAsWritten(s, offset, limit) == Done(Page(s, offset, limit))
  {
    var lim := if limit == LimitNotSet then |s| else limit;
    assert Wrap64(offset + lim) == offset + lim;
    if offset < |s| && offset + lim <= |s| {
      assert Page(s, offset, limit) == s[offset..offset + lim];
    } else if offset < |s| {
      assert Page(s, offset, limit) == s[offset..] == s[offset..|s|];
    }
  }

  /** ApplyQueryToUsers as written: the ordered selection goes through the
      unchecked paging. */
  function ApplyQueryAsWritten(req: SearchRequest, users: seq<UserXMLData>): (r: Sliced<seq<UserXMLData>>)
    ensures r.Panicked? ==> OutOfRange(req.offset, req.limit, |users|)
  {
    var ordered := OrderUsers(Selected(users, req.query), req.orderField, req.orderBy);
    assert |ordered| <= |users| by { assert |ordered| == |multiset(ordered)|; }
    PageAsWritten(ordered, req.offset, req.limit)
  }

  /** Within range the written paging and the checked one agree: a
      pageable request whose end fits in 64 bits gets the same page. */
  lemma AsWrittenAgreesInRange(req: SearchRequest, users: seq<UserXMLData>)
    requires Pageable(req) && req.offset + req.limit <= MaxInt64
    requires req.limit == LimitNotSet ==> req.offset + |users| <= MaxInt64
    ensures ApplyQueryAsWritten(req, users) == Done(ApplyQueryToUsers(req, users))
  {
    var ordered := OrderUsers(Selected(users, req.query), req.orderField, req.orderBy);
    assert |ordered| <= |users| by { assert |ordered| == |multiset(ordered)|; }
    PageAsWrittenInRange(ordered, req.offset, req.limit);
  }

  /** The written validation lets `offset=-1` through, and the paging then
      slices from index -1 even over an empty dataset. */
  lemma NegativeOffsetPanics()
    ensures var q: Query := map["offset" := ["-1"]];
            && ProcessQueryParamsAsWritten(q) == Ok(SearchRequest(LimitNotSet, -1, "", FieldName, OrderByAsIs))
            && ApplyQueryAsWritten(ProcessQueryParamsAsWritten(q).value, []) == Panicked
            && ProcessQueryParams(q) == Err(Invalid(InvalidOffsetMessage))
  {
    var q: Query := map["offset" := ["-1"]];
    assert Get(q, "offset") == "-1";
    assert Get(q, "limit") == "" && Get(q, "order_by") == "" && Get(q, "order_field") == "" && Get(q, "query") == "";
    assert AllDigits("1");
    assert "-1"[1..] == "1";
    assert ParseDigits("1") == 1 by { assert "1"[..0] == ""; }
  }

  /** A limit of MaxInt64 passes every check, but `offset+limit` then
      wraps to a negative end below the start of the slice. */
  lemma LimitOverflowPanics(u: UserXMLData)
    ensures var req := SearchRequest(MaxInt64, 1, "", FieldName, OrderByAsIs);
            && Pageable(req)
            && ApplyQueryAsWritten(req, [u, u]) == Panicked
            && ApplyQueryToUsers(req, [u, u]) == [u]
  {
    assert Wrap64(1 + MaxInt64) == MinInt64;
  }

  // ---------------------------------------------------------------------------
  // The handler
  // ---------------------------------------------------------------------------

  /** What the handler answers: 401, 400 with the parameter error, 500
      with the dataset error, or 200 with the found users. */
  datatype Response =
    | Unauthorized(message: string)
    | BadRequest(error: ParamError)
    | InternalError(message: string)
    | Found(users: seq<UserJson>)

  function Status(r: Response): int {
    match r
    case Unauthorized(_) => StatusUnauthorized
    case BadRequest(_) => StatusBadRequest
    case InternalError(_) => StatusInternalServerError
    case Found(_) => StatusOK
  }

  /** SearchServer: an empty AccessToken is refused before anything else;
      then bad parameters give 400, an unreadable dataset 500, and
      otherwise the serialised page of users comes back with 200. */
  function SearchServer(token: string, q: Query, dataset: Result<seq<UserXMLData>, string>): (r: Response)
    ensures token == "" <==> r == Unauthorized(AccessDeniedMessage)
    ensures Status(r) == StatusBadRequest <==> token != "" && ProcessQueryParams(q).Err?
    ensures Status(r) == StatusBadRequest ==> r.error == ProcessQueryParams(q).error
    ensures Status(r) == StatusInternalServerError <==>
              token != "" && ProcessQueryParams(q).Ok? && dataset.Err?
    ensures r.Found? <==> token != "" && ProcessQueryParams(q).Ok? && dataset.Ok?
    ensures r.Found? ==>
              var page := ApplyQueryToUsers(ProcessQueryParams(q).value, dataset.value);
              |r.users| == |page| && forall i :: 0 <= i < |page| ==> r.users[i] == ToJson(page[i])
  {
    if token == "" then Unauthorized(AccessDeniedMessage)
    else match ProcessQueryParams(q)
      case Err(e) => BadRequest(e)
      case Ok(req) =>
        match dataset
        case Err(msg) => InternalError(msg)
        case Ok(users) =>
          FoundPage(ApplyQueryToUsers(req, users))
  }

  /** The answer to a page of users: each serialised in order. */
  function FoundPage(page: seq<UserXMLData>): (r: Response)
    ensures r.Found? && |r.users| == |page|
    ensures forall i :: 0 <= i < |page| ==> r.users[i] == ToJson(page[i])
  {
    Found(seq(|page|, i requires 0 <= i < |page| => ToJson(page[i])))
  }

  /** SearchServer as written: it validates with the written parameter
      processing and pages with the unchecked slicing, so a request the
      range checks would refuse reaches the slice expression and the
      handler panics instead of answering. */
  function SearchServerAsWritten(token: string, q: Query, dataset: Result<seq<UserXMLData>, string>): (r: Sliced<Response>)
    ensures token == "" <==> r == Done(Unauthorized(AccessDeniedMessage))
    ensures r.Done? && Status(r.value) == StatusBadRequest <==>
              token != "" && ProcessQueryParamsAsWritten(q).Err?
    ensures r.Done? && Status(r.value) == StatusBadRequest ==> r.value.error == ProcessQueryParamsAsWritten(q).error
    ensures r.Done? && Status(r.value) == StatusInternalServerError <==>
              token != "" && ProcessQueryParamsAsWritten(q).Ok? && dataset.Err?
    ensures r.Panicked? <==>
              && token != "" && ProcessQueryParamsAsWritten(q).Ok? && dataset.Ok?
              && ApplyQueryAsWritten(ProcessQueryParamsAsWritten(q).value, dataset.value).Panicked?
    ensures r.Done? && r.value.Found? <==>
              && token != "" && ProcessQueryParamsAsWritten(q).Ok? && dataset.Ok?
              && ApplyQueryAsWritten(ProcessQueryParamsAsWritten(q).value, dataset.value).Done?
    ensures r.Done? && r.value.Found? ==>
              var page := ApplyQueryAsWritten(ProcessQueryParamsAsWritten(q).value, dataset.value).value;
              |r.value.users| == |page| && forall i :: 0 <= i < |page| ==> r.value.users[i] == ToJson(page[i])
  {
    if token == "" then Done(Unauthorized(AccessDeniedMessage))
    else match ProcessQueryParamsAsWritten(q)
      case Err(e) => Done(BadRequest(e))
      case Ok(req) =>
        match dataset
        case Err(msg) => Done(InternalError(msg))
        case Ok(users) =>
          match ApplyQueryAsWritten(req, users)
          case Panicked => Panicked
          case Done(page) => Done(FoundPage(page))
  }

  /** The written handler panics only on an authorised request whose
      written parameters are accepted, over a readable dataset, when the
      paging is out of range. */
  lemma SearchServerPanicsOnlyOutOfRange(token: string, q: Query, dataset: Result<seq<UserXMLData>, string>)
    ensures SearchServerAsWritten(token, q, dataset).Panicked? ==>
              && token != "" && ProcessQueryParamsAsWritten(q).Ok? && dataset.Ok?
              && OutOfRange(ProcessQueryParamsAsWritten(q).value.offset, ProcessQueryParamsAsWritten(q).value.limit,
                            |dataset.value|)
  {
  }

  /** The written handler and the checked one give the same answer to
      every request whose written parameters are in range: the range
      checks only take away the panics. */
  lemma SearchServerAgreesInRange(token: string, q: Query, dataset: Result<seq<UserXMLData>, string>)
    requires ProcessQueryParamsAsWritten(q).Ok? ==>
               var req := ProcessQueryParamsAsWritten(q).value;
               && Pageable(req) && req.offset + req.limit <= MaxInt64
               && (dataset.Ok? && req.limit == LimitNotSet ==> req.offset + |dataset.value| <= MaxInt64)
    ensures SearchServerAsWritten(token, q, dataset) == Done(SearchServer(token, q, dataset))
  {
    if token != "" && ProcessQueryParamsAsWritten(q).Ok? && dataset.Ok? {
      AsWrittenAgreesInRange(ProcessQueryParamsAsWritten(q).value, dataset.value);
    }
  }

  /** An authorised `offset=-1` crashes the written handler even over an
      empty dataset, where the checked one answers 400 with the offset
      message. */
  lemma NegativeOffsetCrashesHandler(token: string)
    requires token != ""
    ensures var q: Query := map["offset" := ["-1"]];
            && SearchServerAsWritten(token, q, Ok([])) == Panicked
            && SearchServer(token, q, Ok([])) == BadRequest(Invalid(InvalidOffsetMessage))
  {
    NegativeOffsetPanics();
  }
}
