/**
 * The review cache and its tier selector: a request is answered from the
 * local cache when fresh rows qualify, otherwise from sample data when
 * provider credentials are missing, otherwise from a live provider fetch
 * (whose rows are upserted into the cache), and when that fetch fails from
 * the cache without its freshness window.
 *
 * The cache table is a map from review id to row; time is an integer count
 * of milliseconds; the provider's answer is a `TpReply` the caller supplies.
 */
module Reviews {
  import opened Wrappers

  function Min(a: int, b: int): int { if a < b then a else b }
  function Max(a: int, b: int): int { if a < b then b else a }

  // ---------------------------------------------------------------------
  // Request parameters
  // ---------------------------------------------------------------------

  const DefaultMinStars := 4
  const DefaultLimit := 6
  /** Rows cached longer ago than this are stale. */
  const FreshnessWindowMs := 24 * 60 * 60 * 1000
  const DayMs := 86400000
  /** How many more reviews than requested the live fetch asks for. */
  const ExtraFetched := 10

  /** The query parameters, after parsing. */
  datatype Params = Params(minStars: int, limit: int, forceSync: bool)

  /** Missing parameters take their defaults; only the exact text "1" forces a live fetch. */
  function ParseParams(minStars: Option<int>, limit: Option<int>, sync: Option<string>): (p: Params)
    ensures minStars.None? ==> p.minStars == DefaultMinStars
    ensures limit.None? ==> p.limit == DefaultLimit
    ensures minStars.Some? ==> p.minStars == minStars.value
    ensures limit.Some? ==> p.limit == limit.value
    ensures p.forceSync <==> sync == Some("1")
  {
    Params(minStars.GetOr(DefaultMinStars), limit.GetOr(DefaultLimit), sync == Some("1"))
  }

  // ---------------------------------------------------------------------
  // The star filter sent to the provider
  // ---------------------------------------------------------------------

  /** The star values the provider is asked about, in the order they are listed. */
  const StarScale: seq<int> := [5, 4, 3, 2, 1]

  ghost predicate StrictlyDescending(xs: seq<int>) {
    forall i, j :: 0 <= i < j < |xs| ==> xs[i] > xs[j]
  }

  /** `xs.filter(s => s >= m)`. */
  function KeepAtLeast(xs: seq<int>, m: int): (r: seq<int>)
    ensures forall x :: x in r <==> x in xs && x >= m
    ensures |r| <= |xs|
  {
    if xs == [] then []
    else
      var rest := KeepAtLeast(xs[1..], m);
      assert forall x :: x in rest ==> x in xs[1..];
      if xs[0] >= m then [xs[0]] + rest else rest
  }

  /** Filtering keeps the order: a descending list stays descending. */
  lemma {:induction false} KeepAtLeastDescending(xs: seq<int>, m: int)
    requires StrictlyDescending(xs)
    ensures StrictlyDescending(KeepAtLeast(xs, m))
  {
    if xs != [] {
      var rest := KeepAtLeast(xs[1..], m);
      assert StrictlyDescending(xs[1..]);
      KeepAtLeastDescending(xs[1..], m);
      if xs[0] >= m {
        var r := [xs[0]] + rest;
        forall i, j | 0 <= i < j < |r|
          ensures r[i] > r[j]
        {
          if i == 0 {
            assert r[j] in rest;
          }
        }
      }
    }
  }

  /** A filter nothing passes gives the empty list. */
  lemma {:induction false} KeepAtLeastNone(xs: seq<int>, m: int)
    requires forall i :: 0 <= i < |xs| ==> xs[i] < m
    ensures KeepAtLeast(xs, m) == []
  {
    if xs != [] {
      KeepAtLeastNone(xs[1..], m);
    }
  }

  /** The star values at or above `minStars`, highest first, with no repeats. */
  function StarValues(minStars: int): (r: seq<int>)
    ensures forall s :: s in r <==> 1 <= s <= 5 && s >= minStars
    ensures StrictlyDescending(r)
    ensures AllDigits(r) && |r| <= |StarScale|
  {
    KeepAtLeastDescending(StarScale, minStars);
    var r := KeepAtLeast(StarScale, minStars);
    assert forall i :: 0 <= i < |r| ==> r[i] in r;
    r
  }

  ghost predicate AllDigits(xs: seq<int>) {
    forall i :: 0 <= i < |xs| ==> 0 <= xs[i] <= 9
  }

  function DigitChar(d: int): char
    requires 0 <= d <= 9
  {
    ('0' as int + d) as char
  }

  /** `xs.join(',')` for single digits: digit k at position 2k, a comma between each two. */
  function JoinDigits(xs: seq<int>): (s: string)
    requires AllDigits(xs)
    ensures |s| == if xs == [] then 0 else 2 * |xs| - 1
    ensures forall k :: 0 <= k < |xs| ==> s[2 * k] == DigitChar(xs[k])
    ensures forall k :: 0 <= k < |s| ==> (s[k] == ',' <==> k % 2 == 1)
  {
    if xs == [] then ""
    else if |xs| == 1 then [DigitChar(xs[0])]
    else [DigitChar(xs[0]), ','] + JoinDigits(xs[1..])
  }

  /**
   * A reference reader for a comma-separated list of single digits; it fails
   * on any other separator and on a separator with nothing after it.
   */
  function SplitDigits(s: string): (r: Option<seq<int>>)
    ensures r.Some? ==> |s| == if r.value == [] then 0 else 2 * |r.value| - 1
    decreases |s|
  {
    if |s| == 0 then Some([])
    else if |s| == 1 then Some([s[0] as int - '0' as int])
    else if s[1] != ',' || |s| == 2 then None
    else
      match SplitDigits(s[2..])
      case None => None
      case Some(rest) => Some([s[0] as int - '0' as int] + rest)
  }

  /** Reading the joined list back gives the list. */
  lemma {:induction false} SplitJoinDigits(xs: seq<int>)
    requires AllDigits(xs)
    ensures SplitDigits(JoinDigits(xs)) == Some(xs)
    decreases |xs|
  {
    if |xs| > 1 {
      var s := JoinDigits(xs);
      assert AllDigits(xs[1..]);
      assert s[1] == ',' && s[2..] == JoinDigits(xs[1..]);
      SplitJoinDigits(xs[1..]);
      assert s[0] as int - '0' as int == xs[0];
      assert SplitDigits(s) == Some([xs[0]] + xs[1..]);
      assert xs == [xs[0]] + xs[1..];
    } else if |xs| == 1 {
      var s := JoinDigits(xs);
      assert |s| == 1 && s[0] as int - '0' as int == xs[0];
      assert SplitDigits(s) == Some([xs[0]]);
      assert xs == [xs[0]];
    }
  }

  /** The `stars` query parameter of the live fetch: at most "5,4,3,2,1". */
  function StarsParam(minStars: int): (s: string)
    ensures |s| <= 9
    ensures forall k :: 0 <= k < |s| ==> (s[k] == ',' <==> k % 2 == 1)
  {
    JoinDigits(StarValues(minStars))
  }

  /** The parameter reads back as exactly the star values at or above `minStars`, highest first. */
  lemma StarsParamRoundTrip(minStars: int)
    ensures SplitDigits(StarsParam(minStars)) == Some(StarValues(minStars))
  {
    SplitJoinDigits(StarValues(minStars));
  }

  /** The parameter is empty exactly when no star value qualifies. */
  lemma StarsParamEmpty(minStars: int)
    ensures StarsParam(minStars) == "" <==> minStars > 5
  {
    if minStars <= 5 {
      assert Max(minStars, 1) in StarValues(minStars);
    } else {
      KeepAtLeastNone(StarScale, minStars);
    }
  }

  /** The default filter asks for five- and four-star reviews. */
  lemma StarsParamDefault()
    ensures StarsParam(DefaultMinStars) == "5,4"
  {
    assert StarScale[1..] == [4, 3, 2, 1] && StarScale[2..] == [3, 2, 1];
    KeepAtLeastNone(StarScale[2..], 4);
    assert KeepAtLeast(StarScale[1..], 4) == [4];
    assert StarValues(4) == [5, 4];
    assert JoinDigits([4]) == "4";
  }

  /** A threshold of 1 or less asks for every star value. */
  lemma StarsParamAll(minStars: int)
    requires minStars <= 1
    ensures StarsParam(minStars) == "5,4,3,2,1"
  {
    KeepAtLeastAll(StarScale, minStars);
    assert StarValues(minStars) == StarScale;
    var s := JoinDigits(StarScale);
    assert s[0] == '5' && s[2] == '4' && s[4] == '3' && s[6] == '2' && s[8] == '1';
    assert s[1] == ',' && s[3] == ',' && s[5] == ',' && s[7] == ',';
  }

  /** A filter everything passes gives the list itself. */
  lemma {:induction false} KeepAtLeastAll(xs: seq<int>, m: int)
    requires forall i :: 0 <= i < |xs| ==> xs[i] >= m
    ensures KeepAtLeast(xs, m) == xs
  {
    if xs != [] {
      KeepAtLeastAll(xs[1..], m);
      assert xs == [xs[0]] + xs[1..];
    }
  }

  /** The provider request of the live tier. */
  datatype TpRequest = TpRequest(stars: string, orderBy: string, perPage: int, language: string)

  /** Newest first, German reviews, `perPage` of them, with exactly the star values at or above `minStars`. */
  function LiveRequest(minStars: int, perPage: int): (r: TpRequest)
    ensures SplitDigits(r.stars) == Some(StarValues(minStars))
    ensures r.orderBy == "createdat.desc" && r.perPage == perPage && r.language == "de"
  {
    StarsParamRoundTrip(minStars);
    TpRequest(StarsParam(minStars), "createdat.desc", perPage, "de")
  }

  // ---------------------------------------------------------------------
  // Rows, and the provider's answer
  // ---------------------------------------------------------------------

  /** A row of the review cache table. */
  datatype CachedReview = CachedReview(
    id: string,
    stars: int,
    title: Option<string>,
    text: Option<string>,
    authorName: string,
    authorLocation: Option<string>,
    createdAtTp: int,
    response: Option<string>,
    cachedAt: int,
    isVisible: bool)

  datatype Consumer = Consumer(displayName: Option<string>, countryCode: Option<string>)
  datatype CompanyReply = CompanyReply(text: Option<string>)

  /** A review as the provider returns it. */
  datatype TpReview = TpReview(
    id: string,
    stars: int,
    title: Option<string>,
    text: Option<string>,
    consumer: Option<Consumer>,
    createdAt: int,
    companyReply: Option<CompanyReply>)

  /** The live fetch: a JSON body (reviews and total may be absent), or the error it threw. */
  datatype TpReply = Ok(reviews: Option<seq<TpReview>>, total: Option<int>) | Fail(message: string)

  const AnonymousAuthor := "Anonym"

  /**
   * A provider review as a cache row, stamped `now`: same id, stars, texts
   * and date; "Anonym" when there is no display name, no location or reply
   * when the provider gives none; always visible.
   */
  function ToRow(r: TpReview, now: int): (row: CachedReview)
    ensures row.id == r.id && row.stars == r.stars && row.createdAtTp == r.createdAt
    ensures row.title == r.title && row.text == r.text
    ensures row.isVisible && row.cachedAt == now
    ensures r.consumer.Some? && r.consumer.value.displayName.Some? ==>
              row.authorName == r.consumer.value.displayName.value
    ensures (r.consumer.None? || r.consumer.value.displayName.None?) ==> row.authorName == AnonymousAuthor
    ensures r.consumer.None? ==> row.authorLocation == None
    ensures r.consumer.Some? ==> row.authorLocation == r.consumer.value.countryCode
    ensures r.companyReply.None? ==> row.response == None
    ensures r.companyReply.Some? ==> row.response == r.companyReply.value.text
  {
    var author := if r.consumer.Some? then r.consumer.value.displayName else None;
    var location := if r.consumer.Some? then r.consumer.value.countryCode else None;
    var reply := if r.companyReply.Some? then r.companyReply.value.text else None;
    CachedReview(r.id, r.stars, r.title, r.text, author.GetOr(AnonymousAuthor), location,
                 r.createdAt, reply, now, true)
  }

  /** The provider's reviews mapped one to one, in the provider's order. */
  function ToRows(rs: seq<TpReview>, now: int): (rows: seq<CachedReview>)
    ensures |rows| == |rs|
    ensures forall i :: 0 <= i < |rs| ==> rows[i] == ToRow(rs[i], now)
  {
    seq(|rs|, i requires 0 <= i < |rs| => ToRow(rs[i], now))
  }

  /** `s.slice(0, end)` as JavaScript defines it: a negative end counts from the back. */
  function SliceTo<T>(s: seq<T>, end: int): (r: seq<T>)
    ensures r <= s
    ensures end >= 0 ==> |r| == Min(end, |s|)
    ensures end < 0 ==> |r| == Max(|s| + end, 0)
  {
    if end >= 0 then s[..Min(end, |s|)] else s[..Max(|s| + end, 0)]
  }

  /** `a` is `b` with some elements left out, the rest in the same order. */
  ghost predicate Subsequence<T>(a: seq<T>, b: seq<T>)
    decreases |b|
  {
    a == [] || (b != [] && ((a[0] == b[0] && Subsequence(a[1..], b[1..])) || Subsequence(a, b[1..])))
  }

  /** `rows.filter(r => r.stars >= m)`. */
  function AtLeast(rows: seq<CachedReview>, m: int): (r: seq<CachedReview>)
    ensures forall x :: x in r <==> x in rows && x.stars >= m
    ensures forall x :: multiset(r)[x] == if x.stars >= m then multiset(rows)[x] else 0
    ensures Subsequence(r, rows)
  {
    if rows == [] then []
    else
      var rest := AtLeast(rows[1..], m);
      assert forall x :: x in rows[1..] ==> x in rows;
      assert rows == [rows[0]] + rows[1..];
      if rows[0].stars >= m then
        assert ([rows[0]] + rest)[1..] == rest;
        [rows[0]] + rest
      else rest
  }

  // ---------------------------------------------------------------------
  // Sample data
  // ---------------------------------------------------------------------

  /** Ids, authors, places and ages (in days) of the six sample reviews, in display order. */
  const DemoIds: seq<string> := ["demo-1", "demo-2", "demo-3", "demo-4", "demo-5", "demo-6"]
  const DemoAuthors: seq<string> := ["Thomas K.", "Sabine M.", "Michael R.", "Andrea L.", "Klaus W.", "Petra B."]
  const DemoPlaces: seq<string> := ["Bielefeld", "Gütersloh", "Herford", "Detmold", "Minden", "Paderborn"]
  const DemoAgeDays: seq<int> := [7, 14, 21, 30, 45, 60]

  /** Stars of the i-th sample review: all five-star but the last, which has four. */
  function DemoStars(i: nat): int {
    if i < 5 then 5 else 4
  }

  /** Title of the i-th sample review. */
  function DemoTitle(i: nat): string
  {
    if i == 0 then "Rundum perfekter Service!"
    else if i == 1 then "Schnell, zuverlässig, kompetent"
    else if i == 2 then "Bestes Unternehmen für Solaranlagen"
    else if i == 3 then "Professionell von Anfang bis Ende"
    else if i == 4 then "Unkompliziert und schnell!"
    else "Sehr guter Gesamteindruck"
  }

  /** Text of the i-th sample review. */
  function DemoText(i: nat): string
  {
    if i == 0 then "Von der Beratung bis zur Inbetriebnahme war alles top. Das Team hat sich wirklich Zeit genommen, alles verständlich erklärt und der Installationstermin wurde exakt eingehalten. Unsere Anlage läuft seit 3 Monaten einwandfrei. Volle Empfehlung!"
    else if i == 1 then "Ich war skeptisch bei so einem großen Projekt, aber bee-doo hat meine Erwartungen übertroffen. Die Monteure waren pünktlich, sauber und haben alles sorgfältig erklärt. Das Kunden-Portal ist sehr übersichtlich. Super Preis-Leistungs-Verhältnis."
    else if i == 2 then "Nachdem ich drei Angebote verglichen habe, war bee-doo das überzeugendste. Transparente Preise, kompetente Beratung und eine reibungslose Installation. Die Anlage produziert sogar mehr als prognostiziert. Sehr zu empfehlen!"
    else if i == 3 then "Top Beratung, faire Preise und ein sehr freundliches Installationsteam. Alles wurde genau so umgesetzt wie besprochen. Das Online-Portal macht es einfach, den Ertrag zu verfolgen. Ich würde bee-doo jederzeit weiterempfehlen."
    else if i == 4 then "Innerhalb von 6 Wochen vom ersten Gespräch bis zur fertigen Anlage – das hatte ich so nicht erwartet. Das Team kommuniziert transparent und hält was es verspricht. Sehr empfehlenswert!"
    else "Die Beratung war sehr kompetent und die Installation lief reibungslos. Kleinere Kommunikationsprobleme bei der Terminabsprache, aber insgesamt sehr zufrieden. Die Anlage funktioniert einwandfrei."
  }

  /** The company's reply to the i-th sample review, if any. */
  function DemoReply(i: nat): Option<string>
  {
    if i == 0 then Some("Vielen Dank, Thomas! Wir freuen uns riesig über Ihr Feedback und wünschen weiterhin viel Sonnenstrom! ☀️")
    else if i == 1 then None
    else if i == 2 then Some("Toll, das freut uns sehr, Michael! Schön, dass die Anlage so gut läuft. ☀️")
    else if i == 3 then None
    else if i == 4 then Some("Herzlichen Dank, Klaus! Effizienz ist uns sehr wichtig. Viel Spaß mit Ihrer Anlage! 🌞")
    else Some("Danke für Ihr offenes Feedback, Petra! Wir arbeiten ständig an unserer Kommunikation.")
  }

  /**
   * The six sample reviews. Their dates are fixed when the module is loaded
   * (`loadedAt`), not per request: created 7, 14, 21, 30, 45 and 60 days
   * before, cached at that instant.
   */
  function DemoReviews(loadedAt: int): (r: seq<CachedReview>)
    ensures |r| == 6
    ensures forall i :: 0 <= i < |r| ==> r[i].isVisible && r[i].stars >= 4 && r[i].cachedAt == loadedAt
  {
    seq(6, i requires 0 <= i < 6 =>
      CachedReview(DemoIds[i], DemoStars(i), Some(DemoTitle(i)), Some(DemoText(i)), DemoAuthors[i], Some(DemoPlaces[i]),
        loadedAt - DemoAgeDays[i] * DayMs, DemoReply(i), loadedAt, true))
  }

  // ---------------------------------------------------------------------
  // The cache table and its query
  // ---------------------------------------------------------------------

  /** The cache table: rows by their provider id. */
  type Table = map<string, CachedReview>

  /** Each row is stored under its own id (the table's primary key). */
  ghost predicate KeyedById(t: Table) {
    forall id :: id in t ==> t[id].id == id
  }

  /** The query's filter: visible, enough stars and, when a cutoff is given, cached at or after it. */
  predicate Qualifies(r: CachedReview, minStars: int, cutoff: Option<int>) {
    r.isVisible && r.stars >= minStars && (cutoff.Some? ==> r.cachedAt >= cutoff.value)
  }

  /** The ids of the rows that pass the filter. */
  ghost function Eligible(t: Table, minStars: int, cutoff: Option<int>): set<string> {
    set id | id in t && Qualifies(t[id], minStars, cutoff)
  }

  /** `id` is a most recently created row among `ids`. */
  ghost predicate IsLatest(t: Table, id: string, ids: set<string>)
    requires ids <= t.Keys
  {
    id in ids && forall j :: j in ids ==> t[j].createdAtTp <= t[id].createdAtTp
  }

  lemma {:induction false} LatestExists(t: Table, ids: set<string>)
    requires ids <= t.Keys && ids != {}
    ensures exists id :: IsLatest(t, id, ids)
    decreases ids
  {
    var x :| x in ids;
    if ids == {x} {
      assert IsLatest(t, x, ids);
    } else {
      LatestExists(t, ids - {x});
      var y :| IsLatest(t, y, ids - {x});
      if t[x].createdAtTp <= t[y].createdAtTp {
        assert IsLatest(t, y, ids);
      } else {
        assert IsLatest(t, x, ids);
      }
    }
  }

  /**
   * The ids of the `k` most recently created rows among `ids`, newest first;
   * among rows created at the same instant the order is unspecified.
   */
  ghost function TopRecent(t: Table, ids: set<string>, k: nat): (r: seq<string>)
    requires ids <= t.Keys
    ensures |r| == Min(k, |ids|)
    ensures forall i :: 0 <= i < |r| ==> r[i] in ids
    ensures forall i, j :: 0 <= i < j < |r| ==> r[i] != r[j] && t[r[i]].createdAtTp >= t[r[j]].createdAtTp
    ensures forall id :: id in ids && id !in r ==> forall i :: 0 <= i < |r| ==> t[id].createdAtTp <= t[r[i]].createdAtTp
    decreases k
  {
    if k == 0 || ids == {} then []
    else
      LatestExists(t, ids);
      var m :| IsLatest(t, m, ids);
      [m] + TopRecent(t, ids - {m}, k - 1)
  }

  /**
   * What the query promises: at most `limit` rows, as many as qualify up to
   * that bound; each a row of the table that passes the filter; no row twice;
   * newest first; and no qualifying row left out is newer than one returned.
   */
  ghost predicate IsQueryAnswer(t: Table, minStars: int, cutoff: Option<int>, limit: int, rows: seq<CachedReview>)
  {
    && |rows| == Min(limit, |Eligible(t, minStars, cutoff)|)
    && (forall i :: 0 <= i < |rows| ==> rows[i].id in t && t[rows[i].id] == rows[i] && Qualifies(rows[i], minStars, cutoff))
    && (forall i, j :: 0 <= i < j < |rows| ==> rows[i].id != rows[j].id && rows[i].createdAtTp >= rows[j].createdAtTp)
    && (forall id :: id in Eligible(t, minStars, cutoff) && (forall i :: 0 <= i < |rows| ==> rows[i].id != id) ==>
          forall i :: 0 <= i < |rows| ==> t[id].createdAtTp <= rows[i].createdAtTp)
  }

  /**
   * filter, order by creation date descending, limit: None when the database
   * rejects the query, which it does for a negative limit.
   */
  ghost function QueryCache(t: Table, minStars: int, cutoff: Option<int>, limit: int): (r: Option<seq<CachedReview>>)
    requires KeyedById(t)
    ensures r.None? <==> limit < 0
    ensures r.Some? ==> IsQueryAnswer(t, minStars, cutoff, limit, r.value)
  {
    if limit < 0 then None
    else
      var eligible := Eligible(t, minStars, cutoff);
      var ids := TopRecent(t, eligible, limit);
      var rows := seq(|ids|, i requires 0 <= i < |ids| => t[ids[i]]);
      assert forall i :: 0 <= i < |rows| ==> rows[i].id == ids[i];
      assert forall id :: id in eligible && (forall i :: 0 <= i < |rows| ==> rows[i].id != id) ==> id !in ids;
      Some(rows)
  }

  // ---------------------------------------------------------------------
  // Tier selection
  // ---------------------------------------------------------------------

  /** Which tier answered. */
  datatype Source = Cache | Demo | Api | Fallback

  /** Whether each provider credential is configured (set and non-empty). */
  datatype Credentials = Credentials(apiKey: bool, businessUnitId: bool)

  predicate CredentialsMissing(c: Credentials) {
    !c.apiKey || !c.businessUnitId
  }

  /** The JSON answer: the rows, the source tag, the provider's total and the error text. */
  datatype ReviewResponse = ReviewResponse(
    reviews: seq<CachedReview>,
    source: Source,
    totalFromTp: Option<int>,
    error: Option<string>)

  /** One request: the answer, the provider request made (if any) and the rows to upsert. */
  datatype Served = Served(response: ReviewResponse, request: Option<TpRequest>, written: seq<CachedReview>)

  /** The fresh-cache query, unless a live fetch is forced. */
  ghost function FreshRows(t: Table, p: Params, now: int): Option<seq<CachedReview>>
    requires KeyedById(t)
  {
    if p.forceSync then None else QueryCache(t, p.minStars, Some(now - FreshnessWindowMs), p.limit)
  }

  /** The cache tier answers: not forced, and at least one fresh row qualifies. */
  ghost predicate CacheHit(t: Table, p: Params, now: int)
    requires KeyedById(t)
  {
    var recent := FreshRows(t, p, now);
    recent.Some? && |recent.value| > 0
  }

  /**
   * The review endpoint. `loadedAt` is when the sample data was built;
   * `reply` is what the live fetch yields if it is made.
   */
  ghost function Serve(t: Table, p: Params, creds: Credentials, reply: TpReply, now: int, loadedAt: int): (s: Served)
    requires KeyedById(t)
    ensures s.response.source == Cache <==> CacheHit(t, p, now)
    ensures s.response.source == Demo <==> !CacheHit(t, p, now) && CredentialsMissing(creds)
    ensures s.response.source == Api <==> !CacheHit(t, p, now) && !CredentialsMissing(creds) && reply.Ok?
    ensures s.response.source == Fallback <==> !CacheHit(t, p, now) && !CredentialsMissing(creds) && reply.Fail?
    ensures s.request.Some? <==> s.response.source == Api || s.response.source == Fallback
    ensures s.request.Some? ==> s.request.value == LiveRequest(p.minStars, p.limit + ExtraFetched)
    ensures s.written != [] ==> s.response.source == Api
    ensures s.response.error.Some? <==> s.response.source == Fallback
  {
    var recent := FreshRows(t, p, now);
    if recent.Some? && |recent.value| > 0 then
      Served(ReviewResponse(recent.value, Cache, None, None), None, [])
    else if CredentialsMissing(creds) then
      Served(ReviewResponse(SliceTo(AtLeast(DemoReviews(loadedAt), p.minStars), p.limit), Demo, None, None), None, [])
    else
      var request := LiveRequest(p.minStars, p.limit + ExtraFetched);
      match reply
      case Ok(reviews, total) =>
        var rows := ToRows(reviews.GetOr([]), now);
        Served(ReviewResponse(SliceTo(AtLeast(rows, p.minStars), p.limit), Api, total, None), Some(request), rows)
      case Fail(message) =>
        var stale := QueryCache(t, p.minStars, None, p.limit);
        var shown := if stale.Some? then stale.value else DemoReviews(loadedAt);
        Served(ReviewResponse(shown, Fallback, None, Some(message)), Some(request), [])
  }

  /** The cache tier returns a genuine fresh-query answer of at least one row. */
  lemma CacheTier(t: Table, p: Params, creds: Credentials, reply: TpReply, now: int, loadedAt: int)
    requires KeyedById(t)
    requires Serve(t, p, creds, reply, now, loadedAt).response.source == Cache
    ensures var rows := Serve(t, p, creds, reply, now, loadedAt).response.reviews;
            && !p.forceSync && 1 <= |rows| <= p.limit
            && IsQueryAnswer(t, p.minStars, Some(now - FreshnessWindowMs), p.limit, rows)
  {
  }

  /** The sample tier: the qualifying sample rows in listed order, cut as `slice(0, limit)` cuts. */
  lemma DemoTier(t: Table, p: Params, creds: Credentials, reply: TpReply, now: int, loadedAt: int)
    requires KeyedById(t)
    requires Serve(t, p, creds, reply, now, loadedAt).response.source == Demo
    ensures var rows := Serve(t, p, creds, reply, now, loadedAt).response.reviews;
            && rows == SliceTo(AtLeast(DemoReviews(loadedAt), p.minStars), p.limit)
            && (forall i :: 0 <= i < |rows| ==> rows[i].stars >= p.minStars && rows[i] in DemoReviews(loadedAt))
  {
    var demo := DemoReviews(loadedAt);
    var all := AtLeast(demo, p.minStars);
    var rows := Serve(t, p, creds, reply, now, loadedAt).response.reviews;
    assert rows == SliceTo(all, p.limit);
    forall i | 0 <= i < |rows|
      ensures rows[i].stars >= p.minStars && rows[i] in demo
    {
      assert rows[i] == all[i];
      assert all[i] in all;
    }
  }

  /**
   * The live tier: every mapped row is written to the cache, and the answer is
   * the mapped rows with enough stars, in the provider's order, cut to the limit.
   */
  lemma ApiTier(t: Table, p: Params, creds: Credentials, reply: TpReply, now: int, loadedAt: int)
    requires KeyedById(t)
    requires Serve(t, p, creds, reply, now, loadedAt).response.source == Api
    ensures reply.Ok?
    ensures var s := Serve(t, p, creds, reply, now, loadedAt);
            var mapped := ToRows(reply.reviews.GetOr([]), now);
            && s.written == mapped
            && s.response.totalFromTp == reply.total
            && s.response.reviews == SliceTo(AtLeast(mapped, p.minStars), p.limit)
            && (forall i :: 0 <= i < |s.response.reviews| ==> s.response.reviews[i].stars >= p.minStars)
  {
    var s := Serve(t, p, creds, reply, now, loadedAt);
    var mapped := ToRows(reply.reviews.GetOr([]), now);
    var all := AtLeast(mapped, p.minStars);
    var rows := s.response.reviews;
    assert rows == SliceTo(all, p.limit);
    forall i | 0 <= i < |rows|
      ensures rows[i].stars >= p.minStars
    {
      assert rows[i] == all[i] && all[i] in all;
    }
  }

  /**
   * The failure tier drops only the freshness filter; the sample list (all of
   * it, unfiltered) replaces the answer only when the query itself failed,
   * never when it merely found nothing.
   */
  lemma FallbackTier(t: Table, p: Params, creds: Credentials, reply: TpReply, now: int, loadedAt: int)
    requires KeyedById(t)
    requires Serve(t, p, creds, reply, now, loadedAt).response.source == Fallback
    ensures reply.Fail?
    ensures var s := Serve(t, p, creds, reply, now, loadedAt);
            && s.response.error == Some(reply.message)
            && (p.limit >= 0 ==> IsQueryAnswer(t, p.minStars, None, p.limit, s.response.reviews))
            && (p.limit >= 0 && Eligible(t, p.minStars, None) == {} ==> s.response.reviews == [])
            && (p.limit < 0 ==> s.response.reviews == DemoReviews(loadedAt))
  {
  }

  /** No tier ever shows a row that is hidden. */
  lemma NeverSurfacesHidden(t: Table, p: Params, creds: Credentials, reply: TpReply, now: int, loadedAt: int)
    requires KeyedById(t)
    ensures var rows := Serve(t, p, creds, reply, now, loadedAt).response.reviews;
            forall i :: 0 <= i < |rows| ==> rows[i].isVisible
  {
    var s := Serve(t, p, creds, reply, now, loadedAt);
    var rows := s.response.reviews;
    match s.response.source
    case Cache =>
    case Demo =>
      DemoTier(t, p, creds, reply, now, loadedAt);
      forall i | 0 <= i < |rows| ensures rows[i].isVisible {
        assert rows[i] in DemoReviews(loadedAt);
      }
    case Api =>
      ApiTier(t, p, creds, reply, now, loadedAt);
      var mapped := ToRows(reply.reviews.GetOr([]), now);
      var all := AtLeast(mapped, p.minStars);
      forall i | 0 <= i < |rows| ensures rows[i].isVisible {
        assert rows[i] == all[i] && all[i] in all;
        assert rows[i] in mapped;
      }
    case Fallback =>
      if p.limit < 0 {
        assert rows == DemoReviews(loadedAt);
      }
  }

  /**
   * The hide is not sticky: every mapped row is written with is_visible set,
   * and the upsert overwrites every column of a row with the same id, so a
   * live fetch that returns a hidden review again makes it visible in the
   * table, and later cache queries may show it.
   */
  lemma LiveFetchUnhides(t: Table, p: Params, creds: Credentials, reply: TpReply, now: int, loadedAt: int, j: nat)
    requires KeyedById(t)
    requires Serve(t, p, creds, reply, now, loadedAt).response.source == Api
    requires reply.Ok? && reply.reviews.Some? && j < |reply.reviews.value|
    requires reply.reviews.value[j].id in t && !t[reply.reviews.value[j].id].isVisible
    requires DistinctIds(Serve(t, p, creds, reply, now, loadedAt).written)
    ensures var id := reply.reviews.value[j].id;
            var u := Upserted(t, Serve(t, p, creds, reply, now, loadedAt).written);
            id in u && u[id].isVisible && u[id] == ToRow(reply.reviews.value[j], now)
  {
    var s := Serve(t, p, creds, reply, now, loadedAt);
    ApiTier(t, p, creds, reply, now, loadedAt);
    var batch := s.written;
    assert batch[j] == ToRow(reply.reviews.value[j], now);
    assert BatchMap(batch)[batch[j].id] == batch[j];
  }

  // ---------------------------------------------------------------------
  // Upsert keyed by id
  // ---------------------------------------------------------------------

  function IdsOf(batch: seq<CachedReview>): set<string> {
    set r | r in batch :: r.id
  }

  predicate DistinctIds(batch: seq<CachedReview>) {
    forall i, j :: 0 <= i < j < |batch| ==> batch[i].id != batch[j].id
  }

  /** The batch as a table; a later row with an id already seen replaces the earlier one. */
  function BatchMap(batch: seq<CachedReview>): (m: Table)
    ensures m.Keys == IdsOf(batch)
    ensures KeyedById(m)
    ensures DistinctIds(batch) ==> forall i :: 0 <= i < |batch| ==> batch[i].id in m && m[batch[i].id] == batch[i]
    decreases |batch|
  {
    if batch == [] then map[]
    else
      var init := batch[..|batch| - 1];
      var last := batch[|batch| - 1];
      assert forall r :: r in batch <==> r in init || r == last;
      BatchMap(init)[last.id := last]
  }

  /**
   * The upsert: insert or overwrite each row of the batch under its id. The
   * database rejects a batch that names one id twice, and the handler ignores
   * the error, so such a batch leaves the table as it was.
   */
  function Upserted(t: Table, batch: seq<CachedReview>): (u: Table)
    ensures DistinctIds(batch) ==> u.Keys == t.Keys + IdsOf(batch)
    ensures DistinctIds(batch) ==> forall id :: id in t && id !in IdsOf(batch) ==> u[id] == t[id]
    ensures !DistinctIds(batch) ==> u == t
  {
    if DistinctIds(batch) then t + BatchMap(batch) else t
  }

  /** After the upsert each batch id holds the batch's row, and rows with other ids are untouched. */
  lemma UpsertWritesBatch(t: Table, batch: seq<CachedReview>)
    requires DistinctIds(batch)
    ensures var u := Upserted(t, batch);
            && u.Keys == t.Keys + IdsOf(batch)
            && (forall i :: 0 <= i < |batch| ==> u[batch[i].id] == batch[i])
            && (forall id :: id in t && id !in IdsOf(batch) ==> u[id] == t[id])
  {
  }

  /** An empty batch, or one the database rejects, changes nothing. */
  lemma UpsertNoWrite(t: Table, batch: seq<CachedReview>)
    requires batch == [] || !DistinctIds(batch)
    ensures Upserted(t, batch) == t
  {
    if batch == [] {
      assert BatchMap(batch) == map[];
      assert t + map[] == t;
    }
  }

  /** Repeating an upsert changes nothing. */
  lemma UpsertIdempotent(t: Table, batch: seq<CachedReview>)
    ensures Upserted(Upserted(t, batch), batch) == Upserted(t, batch)
  {
    if DistinctIds(batch) {
      var m := BatchMap(batch);
      assert (t + m) + m == t + m;
    }
  }

  /** The upsert keeps every row under its own id. */
  lemma UpsertKeyedById(t: Table, batch: seq<CachedReview>)
    requires KeyedById(t)
    ensures KeyedById(Upserted(t, batch))
  {
  }

  /** Two upserts of one id leave one row under it, holding the later values. */
  lemma LaterUpsertWins(t: Table, first: CachedReview, second: CachedReview)
    requires first.id == second.id
    ensures var u := Upserted(Upserted(t, [first]), [second]);
            && u.Keys == t.Keys + {second.id}
            && u[second.id] == second
  {
    assert IdsOf([first]) == {first.id};
    assert IdsOf([second]) == {second.id};
  }

  /** The cache table as the endpoint changes it. */
  class ReviewStore {
    var rows: Table

    ghost predicate Valid()
      reads this
    {
      KeyedById(rows)
    }

    constructor ()
      ensures Valid() && rows == map[]
    {
      rows := map[];
    }

    /** Caches a batch of mapped rows (skipped when the batch is empty). */
    method CacheBatch(batch: seq<CachedReview>)
      requires Valid()
      modifies this
      ensures Valid()
      ensures rows == Upserted(old(rows), batch)
    {
      if |batch| > 0 && DistinctIds(batch) {
        rows := rows + BatchMap(batch);
      } else {
        UpsertNoWrite(rows, batch);
      }
    }
  }

  /**
   * A request followed by its write leaves the table keyed by id; after a
   * live answer whose ids are distinct, every row shown is in the table.
   */
  lemma ServeThenCache(t: Table, p: Params, creds: Credentials, reply: TpReply, now: int, loadedAt: int)
    requires KeyedById(t)
    ensures var s := Serve(t, p, creds, reply, now, loadedAt);
            var u := Upserted(t, s.written);
            && KeyedById(u)
            && (s.response.source == Api && DistinctIds(s.written) ==>
                  forall i :: 0 <= i < |s.response.reviews| ==>
                    s.response.reviews[i].id in u && u[s.response.reviews[i].id] == s.response.reviews[i])
  {
    var s := Serve(t, p, creds, reply, now, loadedAt);
    UpsertKeyedById(t, s.written);
    if s.response.source == Api && DistinctIds(s.written) {
      ApiTier(t, p, creds, reply, now, loadedAt);
      UpsertWritesBatch(t, s.written);
      var mapped := s.written;
      var all := AtLeast(mapped, p.minStars);
      var u := Upserted(t, mapped);
      forall i | 0 <= i < |s.response.reviews|
        ensures s.response.reviews[i].id in u && u[s.response.reviews[i].id] == s.response.reviews[i]
      {
        var r := s.response.reviews[i];
        assert r == all[i] && all[i] in all;
        assert r in mapped;
        var k :| 0 <= k < |mapped| && mapped[k] == r;
      }
    }
  }
}
