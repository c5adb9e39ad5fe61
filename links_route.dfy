/**
  The collection route of the link API (app/api/links/route.js): POST
  allocates a short code and inserts one link, GET lists every link,
  newest first.

  The database is a finite map from code to link record. Randomness is an
  oracle: the sequence of alphabet indices the random draws would have
  produced. URL parsing (`new URL`) is the caller-supplied total
  predicate `isValidUrl`. The record's `id` and the creation time are
  supplied as the store would assign them.
 */
module LinksRoute {
  import opened Wrappers
  import opened JsText
  import opened CodeFormat

  /** The length generateCode is called with. */
  const CodeLength: nat := 6
  /** The number of candidates the allocator tries. */
  const MaxAttempts: nat := 5

  /** One row of the link table. */
  datatype Link = Link(
    id: string,
    code: string,
    url: string,
    clicks: nat,
    lastClickedAt: Option<int>,
    createdAt: int,
    updatedAt: int)

  type Store = map<string, Link>

  /** Every record is filed under its own code (so codes are unique) and
      every code has the short-code format. */
  ghost predicate ValidStore(store: Store) {
    forall c :: c in store ==> store[c].code == c && MatchesCodeRegex(c)
  }

  /** A field of the parsed JSON request body. */
  datatype JsValue = Undefined | Str(s: string) | NonString(truthy: bool)

  /** JavaScript truthiness of a body field: the falsy values are
      `undefined`, the empty string and the falsy non-strings. */
  predicate Truthy(v: JsValue)
    ensures !Truthy(v) <==> v == Undefined || v == Str("") || v == NonString(false)
  {
    match v
    case Undefined => false
    case Str(s) => s != ""
    case NonString(t) => t
  }

  datatype CreateBody = CreateBody(url: JsValue, code: JsValue)

  /** The JSON payload of a response. */
  datatype Payload = Record(link: Link) | Records(links: seq<Link>) | Message(error: string)

  datatype Reply = Reply(status: int, payload: Payload)

  const UrlRequired: string := "URL is required"
  const InvalidUrl: string := "Invalid URL"
  const InvalidCode: string := "Code must be 6\U{2013}8 alphanumeric characters"
  const CodeExists: string := "Code already exists"
  const GenerationFailed: string := "Failed to generate code"
  const InternalError: string := "Internal server error"

  // ---------------------------------------------------------------------
  // generateCode

  /** Oracle indices all name a character of the alphabet. */
  predicate ValidIndices(oracle: seq<nat>) {
    forall i :: 0 <= i < |oracle| ==> oracle[i] < |Alphabet|
  }

  /** The string whose `i`-th character is the alphabet character the
      `i`-th oracle index names, for the first `n` indices. */
  function Drawn(oracle: seq<nat>, n: nat): string
    requires n <= |oracle| && ValidIndices(oracle)
  {
    seq(n, i requires 0 <= i < n => Alphabet[oracle[i]])
  }

  /** Every drawn string has the requested length and consists of
      characters of the regex's class; at lengths 6 to 8 it matches
      CODE_REGEX. */
  lemma DrawnIsAlphanumeric(oracle: seq<nat>, n: nat)
    requires n <= |oracle| && ValidIndices(oracle)
    ensures |Drawn(oracle, n)| == n
    ensures forall i :: 0 <= i < n ==> IsAlphanumeric(Drawn(oracle, n)[i])
    ensures MinCodeLength <= n <= MaxCodeLength ==> MatchesCodeRegex(Drawn(oracle, n))
  {
    AlphabetIsCharClass();
    forall i | 0 <= i < n ensures IsAlphanumeric(Drawn(oracle, n)[i]) {
      assert Drawn(oracle, n)[i] == Alphabet[oracle[i]];
    }
  }

  /** generateCode(length): appends one oracle-chosen alphabet character
      per iteration. Returns the string and the unused rest of the oracle. */
  method GenerateCode(length: nat, oracle: seq<nat>) returns (out: string, rest: seq<nat>)
    requires length <= |oracle| && ValidIndices(oracle)
    ensures out == Drawn(oracle, length) && rest == oracle[length..]
    ensures |out| == length && forall i :: 0 <= i < |out| ==> IsAlphanumeric(out[i])
  {
    out := "";
    var i := 0;
    while i < length
      invariant 0 <= i <= length
      invariant out == Drawn(oracle, i)
    {
      out := out + [Alphabet[oracle[i]]];
      i := i + 1;
    }
    rest := oracle[length..];
    DrawnIsAlphanumeric(oracle, length);
  }

  // ---------------------------------------------------------------------
  // The allocator's retry policy

  /** The oracle supplies enough valid indices for all five attempts. */
  predicate ValidOracle(oracle: seq<nat>) {
    MaxAttempts * CodeLength <= |oracle| && ValidIndices(oracle)
  }

  /** The candidate generateCode(6) yields on attempt `k` (from 0). */
  function Candidate(oracle: seq<nat>, k: nat): string
    requires ValidOracle(oracle) && k < MaxAttempts
  {
    Drawn(oracle[k * CodeLength..], CodeLength)
  }

  /** The first attempt from `k` on whose candidate is free in the store,
      if any of the attempts before MaxAttempts has one. */
  function FirstFreeAttempt(store: Store, oracle: seq<nat>, k: nat): (r: Option<nat>)
    requires ValidOracle(oracle) && k <= MaxAttempts
    ensures r.Some? ==> k <= r.value < MaxAttempts && Candidate(oracle, r.value) !in store
    ensures r.Some? ==> forall j :: k <= j < r.value ==> Candidate(oracle, j) in store
    ensures r.None? <==> forall j :: k <= j < MaxAttempts ==> Candidate(oracle, j) in store
    decreases MaxAttempts - k
  {
    if k == MaxAttempts then None
    else if Candidate(oracle, k) !in store then Some(k)
    else FirstFreeAttempt(store, oracle, k + 1)
  }

  /** Every candidate has the short-code format. */
  lemma CandidateMatchesRegex(oracle: seq<nat>, k: nat)
    requires ValidOracle(oracle) && k < MaxAttempts
    ensures MatchesCodeRegex(Candidate(oracle, k))
  {
    DrawnIsAlphanumeric(oracle[k * CodeLength..], CodeLength);
  }

  // ---------------------------------------------------------------------
  // POST

  /** The row prisma.link.create inserts: no clicks, never clicked, created
      and updated now. */
  function NewLink(id: string, code: string, url: string, now: int): Link {
    Link(id, code, url, 0, None, now, now)
  }

  function Created(store: Store, code: string, url: string, id: string, now: int): (Reply, Store) {
    (Reply(201, Record(NewLink(id, code, url, now))), store[code := NewLink(id, code, url, now)])
  }

  function Rejected(store: Store, status: int, error: string): (Reply, Store) {
    (Reply(status, Message(error)), store)
  }

  /** The decision POST makes, as a function of the store before the call.
      A truthy non-string code skips the custom-code branch and survives an
      exhausted retry loop; the insert then receives a non-string code,
      which the store rejects, and the catch-all answers 500. */
  function PostOutcome(store: Store, body: CreateBody, oracle: seq<nat>,
                       isValidUrl: string -> bool, id: string, now: int): (r: (Reply, Store))
    requires ValidOracle(oracle)
    ensures r.0.status in {201, 400, 409, 500}
    ensures r.0.status == 201 <==> r.0.payload.Record?
    ensures r.0.status != 201 ==> r.1 == store && r.0.payload.Message? && r.0.payload.error != ""
    ensures forall c :: c in store ==> c in r.1 && r.1[c] == store[c]
  {
    if !Truthy(body.url) || !body.url.Str? then Rejected(store, 400, UrlRequired)
    else if !isValidUrl(body.url.s) then Rejected(store, 400, InvalidUrl)
    else if Truthy(body.code) && body.code.Str? then
      var code := Trim(body.code.s);
      if !MatchesCodeRegex(code) then Rejected(store, 400, InvalidCode)
      else if code in store then Rejected(store, 409, CodeExists)
      else Created(store, code, body.url.s, id, now)
    else
      match FirstFreeAttempt(store, oracle, 0)
      case Some(k) => Created(store, Candidate(oracle, k), body.url.s, id, now)
      case None =>
        if Truthy(body.code) then Rejected(store, 500, InternalError)
        else Rejected(store, 500, GenerationFailed)
  }

  /** The POST handler: validates the URL, then either checks the trimmed
      custom code or runs the bounded retry loop, then inserts one record. */
  method Post(store: Store, body: CreateBody, oracle: seq<nat>,
              isValidUrl: string -> bool, id: string, now: int)
    returns (reply: Reply, store': Store)
    requires ValidOracle(oracle)
    ensures (reply, store') == PostOutcome(store, body, oracle, isValidUrl, id, now)
  {
    store' := store;
    if !Truthy(body.url) || !body.url.Str? {
      reply := Reply(400, Message(UrlRequired));
      return;
    }
    var url := body.url.s;
    if !isValidUrl(url) {
      reply := Reply(400, Message(InvalidUrl));
      return;
    }
    var code := body.code;
    if Truthy(code) && code.Str? {
      code := Str(Trim(code.s));
      if !MatchesCodeRegex(code.s) {
        reply := Reply(400, Message(InvalidCode));
        return;
      }
      if code.s in store {
        reply := Reply(409, Message(CodeExists));
        return;
      }
    } else {
      var i := 0;
      var rest := oracle;
      while i < MaxAttempts
        invariant 0 <= i <= MaxAttempts
        invariant rest == oracle[i * CodeLength..]
        invariant code == body.code
        invariant FirstFreeAttempt(store, oracle, 0) == FirstFreeAttempt(store, oracle, i)
      {
        var candidate;
        candidate, rest := GenerateCode(CodeLength, rest);
        assert candidate == Candidate(oracle, i);
        if candidate !in store {
          code := Str(candidate);
          break;
        }
        i := i + 1;
      }
      if !Truthy(code) {
        reply := Reply(500, Message(GenerationFailed));
        return;
      }
    }
    if !code.Str? {
      reply := Reply(500, Message(InternalError));
      return;
    }
    var link := NewLink(id, code.s, url, now);
    store' := store[code.s := link];
    reply := Reply(201, Record(link));
  }

  // ---------------------------------------------------------------------
  // What POST promises

  /** A missing, empty or non-string URL is "URL is required", a URL the
      parser refuses is "Invalid URL"; both are 400 and change nothing. */
  lemma PostRejectsBadUrl(store: Store, body: CreateBody, oracle: seq<nat>,
                          isValidUrl: string -> bool, id: string, now: int)
    requires ValidOracle(oracle)
    ensures !(body.url.Str? && body.url.s != "") ==>
              PostOutcome(store, body, oracle, isValidUrl, id, now) == (Reply(400, Message(UrlRequired)), store)
    ensures body.url.Str? && body.url.s != "" && !isValidUrl(body.url.s) ==>
              PostOutcome(store, body, oracle, isValidUrl, id, now) == (Reply(400, Message(InvalidUrl)), store)
  {
  }

  /** A usable URL with a non-empty string code: the code is trimmed, then
      a malformed one is 400, a taken one is 409 (both changing nothing),
      and a free one is inserted under exactly the trimmed code. */
  lemma PostCustomCode(store: Store, body: CreateBody, oracle: seq<nat>,
                       isValidUrl: string -> bool, id: string, now: int)
    requires ValidOracle(oracle)
    requires body.url.Str? && body.url.s != "" && isValidUrl(body.url.s)
    requires body.code.Str? && body.code.s != ""
    ensures var (reply, store') := PostOutcome(store, body, oracle, isValidUrl, id, now);
            var code := Trim(body.code.s);
            && (reply.status == 400 <==> !MatchesCodeRegex(code))
            && (reply.status == 409 <==> MatchesCodeRegex(code) && code in store)
            && (reply.status == 201 <==> MatchesCodeRegex(code) && code !in store)
            && (reply.status == 400 ==> reply.payload == Message(InvalidCode) && store' == store)
            && (reply.status == 409 ==> reply.payload == Message(CodeExists) && store' == store)
            && (reply.status == 201 ==>
                  reply.payload == Record(NewLink(id, code, body.url.s, now))
                  && store' == store[code := NewLink(id, code, body.url.s, now)])
  {
  }

  /** A usable URL without a non-empty string code: the inserted code is
      the candidate of the first attempt whose candidate is free, every
      earlier candidate was taken, and the code matches CODE_REGEX. When
      all five candidates are taken nothing is inserted: "Failed to
      generate code" for an absent or falsy code, the catch-all error for
      a truthy non-string one. */
  lemma PostGeneratedCode(store: Store, body: CreateBody, oracle: seq<nat>,
                          isValidUrl: string -> bool, id: string, now: int)
    requires ValidOracle(oracle)
    requires body.url.Str? && body.url.s != "" && isValidUrl(body.url.s)
    requires !(body.code.Str? && body.code.s != "")
    ensures var (reply, store') := PostOutcome(store, body, oracle, isValidUrl, id, now);
            && (reply.status == 201 ==>
                  exists k :: 0 <= k < MaxAttempts && Candidate(oracle, k) !in store
                    && (forall j :: 0 <= j < k ==> Candidate(oracle, j) in store)
                    && reply.payload == Record(NewLink(id, Candidate(oracle, k), body.url.s, now))
                    && store' == store[Candidate(oracle, k) := NewLink(id, Candidate(oracle, k), body.url.s, now)])
            && (reply.status == 201 ==> MatchesCodeRegex(reply.payload.link.code) && |reply.payload.link.code| == CodeLength)
            && (reply.status != 201 <==> forall j :: 0 <= j < MaxAttempts ==> Candidate(oracle, j) in store)
            && (reply.status != 201 ==>
                  reply.status == 500 && store' == store
                  && reply.payload == Message(if Truthy(body.code) then InternalError else GenerationFailed))
  {
    match FirstFreeAttempt(store, oracle, 0)
    case Some(k) =>
      CandidateMatchesRegex(oracle, k);
      DrawnIsAlphanumeric(oracle[k * CodeLength..], CodeLength);
    case None =>
  }

  /** Every outcome is 201, 400, 409 or 500. On 201 exactly one record is
      added, under a code that was free, with the short-code format, no
      clicks and the current time; no existing record changes. Otherwise
      the store is unchanged and the reply carries a non-empty message. */
  lemma PostAddsAtMostOneRecord(store: Store, body: CreateBody, oracle: seq<nat>,
                                isValidUrl: string -> bool, id: string, now: int)
    requires ValidOracle(oracle)
    ensures var (reply, store') := PostOutcome(store, body, oracle, isValidUrl, id, now);
            && reply.status in {201, 400, 409, 500}
            && (reply.status == 201 <==> reply.payload.Record?)
            && (reply.status == 201 ==> AddsOneLink(store, store', reply.payload.link, body, id, now))
            && (reply.status != 201 ==> store' == store && reply.payload.Message? && reply.payload.error != "")
  {
    var (reply, store') := PostOutcome(store, body, oracle, isValidUrl, id, now);
    if !(body.url.Str? && body.url.s != "" && isValidUrl(body.url.s)) {
      PostRejectsBadUrl(store, body, oracle, isValidUrl, id, now);
    } else if body.code.Str? && body.code.s != "" {
      PostCustomCode(store, body, oracle, isValidUrl, id, now);
      if reply.status == 201 {
        AddsOneLinkWhenFree(store, Trim(body.code.s), body, id, now);
      }
    } else {
      PostGeneratedCode(store, body, oracle, isValidUrl, id, now);
      if reply.status == 201 {
        var k :| 0 <= k < MaxAttempts && Candidate(oracle, k) !in store
                 && reply.payload == Record(NewLink(id, Candidate(oracle, k), body.url.s, now))
                 && store' == store[Candidate(oracle, k) := NewLink(id, Candidate(oracle, k), body.url.s, now)];
        CandidateMatchesRegex(oracle, k);
        AddsOneLinkWhenFree(store, Candidate(oracle, k), body, id, now);
      }
    }
  }

  /** `store'` is `store` plus the fresh record `link`, which carries the
      request's URL, no clicks and the current time under a well-formed
      code that was free. */
  ghost predicate AddsOneLink(store: Store, store': Store, link: Link, body: CreateBody, id: string, now: int) {
    && link.code !in store
    && MatchesCodeRegex(link.code)
    && body.url.Str? && link.url == body.url.s
    && link == NewLink(id, link.code, link.url, now)
    && store' == store[link.code := link]
    && |store'| == |store| + 1
  }

  lemma AddsOneLinkWhenFree(store: Store, code: string, body: CreateBody, id: string, now: int)
    requires code !in store && MatchesCodeRegex(code) && body.url.Str?
    ensures var link := NewLink(id, code, body.url.s, now);
            AddsOneLink(store, store[code := link], link, body, id, now)
  {
    var link := NewLink(id, code, body.url.s, now);
    assert store[code := link].Keys == store.Keys + {code};
  }

  /** POST keeps every code unique and well formed. */
  lemma PostPreservesValidStore(store: Store, body: CreateBody, oracle: seq<nat>,
                                isValidUrl: string -> bool, id: string, now: int)
    requires ValidOracle(oracle) && ValidStore(store)
    ensures ValidStore(PostOutcome(store, body, oracle, isValidUrl, id, now).1)
  {
    PostAddsAtMostOneRecord(store, body, oracle, isValidUrl, id, now);
  }

  /** Repeating a successful custom-code creation is a 409 that changes
      nothing. */
  lemma RepeatedCustomCodeConflicts(store: Store, body: CreateBody, oracle: seq<nat>,
                                    isValidUrl: string -> bool, id: string, id2: string, now: int, later: int)
    requires ValidOracle(oracle)
    requires body.code.Str? && body.code.s != ""
    requires PostOutcome(store, body, oracle, isValidUrl, id, now).0.status == 201
    ensures var store1 := PostOutcome(store, body, oracle, isValidUrl, id, now).1;
            PostOutcome(store1, body, oracle, isValidUrl, id2, later) == (Reply(409, Message(CodeExists)), store1)
  {
    PostRejectsBadUrl(store, body, oracle, isValidUrl, id, now);
    PostCustomCode(store, body, oracle, isValidUrl, id, now);
  }

  // ---------------------------------------------------------------------
  // GET

  /** Ordered by createdAt, descending. */
  ghost predicate NewestFirst(links: seq<Link>) {
    forall i, j :: 0 <= i < j < |links| ==> links[i].createdAt >= links[j].createdAt
  }

  /** Some code of a non-empty store whose record is at least as new as
      every other. */
  lemma {:induction false} NewestExists(store: Store)
    requires store != map[]
    ensures exists c :: IsNewest(store, c)
    decreases |store|
  {
    var k :| k in store;
    var rest := store - {k};
    assert rest.Keys == store.Keys - {k};
    if rest == map[] {
      forall d | d in store ensures store[d].createdAt <= store[k].createdAt {
        assert d !in rest.Keys;
      }
      assert IsNewest(store, k);
    } else {
      NewestExists(rest);
      var c :| IsNewest(rest, c);
      var best := if store[c].createdAt < store[k].createdAt then k else c;
      forall d | d in store ensures store[d].createdAt <= store[best].createdAt {
        if d != k {
          assert d in rest.Keys;
        }
      }
      assert IsNewest(store, best);
    }
  }

  /** The record filed under `c` is at least as new as every other one. */
  ghost predicate IsNewest(store: Store, c: string) {
    c in store && forall d :: d in store ==> store[d].createdAt <= store[c].createdAt
  }

  ghost function NewestCode(store: Store): (c: string)
    requires store != map[]
    ensures IsNewest(store, c)
  {
    NewestExists(store);
    var c :| IsNewest(store, c);
    c
  }

  /** The listing GET returns: every record of the store, one entry per
      code and nothing else, newest first. Records created at the same
      time may come in any order. Length and membership make the listing
      a permutation of the records when they are distinct, which holds in
      a valid store, where every record carries its own code. */
  ghost function ListLinks(store: Store): (r: seq<Link>)
    ensures |r| == |store|
    ensures forall c :: c in store ==> store[c] in r
    ensures forall i :: 0 <= i < |r| ==> r[i] in store.Values
    ensures NewestFirst(r)
    ensures ValidStore(store) ==> DistinctCodes(r)
    decreases |store|
  {
    if store == map[] then []
    else
      var c := NewestCode(store);
      var rest := store - {c};
      assert rest.Keys == store.Keys - {c};
      var tail := ListLinks(rest);
      ListStep(store, c, rest, tail);
      assert ValidStore(store) ==> DistinctCodes([store[c]] + tail) by {
        if ValidStore(store) {
          assert ValidStore(rest);
          ConsDistinct(store, c, rest, tail);
        }
      }
      [store[c]] + tail
  }

  /** No two links of the list share a code. */
  ghost predicate DistinctCodes(links: seq<Link>) {
    forall i, j :: 0 <= i < j < |links| ==> links[i].code != links[j].code
  }

  /** When every record is filed under its own code, the record filed
      under `c` has a code no record of the rest has, so it can head a
      listing of the rest. */
  lemma ConsDistinct(store: Store, c: string, rest: Store, tail: seq<Link>)
    requires c in store && rest == store - {c}
    requires forall d :: d in store ==> store[d].code == d
    requires forall i :: 0 <= i < |tail| ==> tail[i] in rest.Values
    requires DistinctCodes(tail)
    ensures DistinctCodes([store[c]] + tail)
  {
    var r := [store[c]] + tail;
    forall i | 0 <= i < |tail| ensures tail[i].code != c {
      assert tail[i] in rest.Values;
      var d :| d in rest && rest[d] == tail[i];
      assert d in store && d != c;
    }
    forall i, j | 0 <= i < j < |r| ensures r[i].code != r[j].code {
      assert r[j] == tail[j - 1];
      if i > 0 {
        assert r[i] == tail[i - 1];
      }
    }
  }

  /** Putting the newest record in front of a listing of the rest gives a
      listing of the whole store. */
  lemma ListStep(store: Store, c: string, rest: Store, tail: seq<Link>)
    requires IsNewest(store, c) && rest == store - {c}
    requires |tail| == |rest|
    requires forall d :: d in rest ==> rest[d] in tail
    requires forall i :: 0 <= i < |tail| ==> tail[i] in rest.Values
    requires NewestFirst(tail)
    ensures |[store[c]] + tail| == |store|
    ensures forall d :: d in store ==> store[d] in [store[c]] + tail
    ensures forall i :: 0 <= i < |tail| + 1 ==> ([store[c]] + tail)[i] in store.Values
    ensures NewestFirst([store[c]] + tail)
  {
    assert rest.Keys == store.Keys - {c};
    var r := [store[c]] + tail;
    TailNoNewer(store, c, rest, tail);
    forall d | d in store ensures store[d] in r {
      if d != c {
        assert d in rest && rest[d] == store[d];
        assert store[d] in tail;
      }
    }
    ConsNewest(store[c], tail);
  }

  /** A record no older than any of a newest-first list can go in front. */
  lemma ConsNewest(first: Link, tail: seq<Link>)
    requires NewestFirst(tail)
    requires forall i :: 0 <= i < |tail| ==> tail[i].createdAt <= first.createdAt
    ensures NewestFirst([first] + tail)
  {
    var r := [first] + tail;
    forall i, j | 0 <= i < j < |r| ensures r[i].createdAt >= r[j].createdAt {
      assert r[j] == tail[j - 1];
      if i > 0 {
        assert r[i] == tail[i - 1];
      }
    }
  }

  /** Every record of a listing of the rest of the store is a record of
      the store, and none is newer than the newest. */
  lemma TailNoNewer(store: Store, c: string, rest: Store, tail: seq<Link>)
    requires IsNewest(store, c) && rest == store - {c}
    requires forall i :: 0 <= i < |tail| ==> tail[i] in rest.Values
    ensures forall i :: 0 <= i < |tail| ==> tail[i] in store.Values && tail[i].createdAt <= store[c].createdAt
  {
    forall i | 0 <= i < |tail|
      ensures tail[i] in store.Values && tail[i].createdAt <= store[c].createdAt
    {
      assert tail[i] in rest.Values;
      var d :| d in rest && rest[d] == tail[i];
      assert store[d] == tail[i];
    }
  }

  /** The GET handler's answer. */
  ghost function Get(store: Store): (reply: Reply)
    ensures reply.status == 200 && reply.payload.Records?
    ensures |reply.payload.links| == |store|
    ensures forall c :: c in store ==> store[c] in reply.payload.links
    ensures forall i :: 0 <= i < |reply.payload.links| ==> reply.payload.links[i] in store.Values
    ensures NewestFirst(reply.payload.links)
  {
    Reply(200, Records(ListLinks(store)))
  }

  /** A link created later than every existing one heads the listing. */
  lemma CreatedLinkListedFirst(store: Store, body: CreateBody, oracle: seq<nat>,
                               isValidUrl: string -> bool, id: string, now: int)
    requires ValidOracle(oracle)
    requires forall c :: c in store ==> store[c].createdAt < now
    requires PostOutcome(store, body, oracle, isValidUrl, id, now).0.status == 201
    ensures var (reply, store') := PostOutcome(store, body, oracle, isValidUrl, id, now);
            ListLinks(store') != [] && ListLinks(store')[0] == reply.payload.link
  {
    PostAddsAtMostOneRecord(store, body, oracle, isValidUrl, id, now);
    var (reply, store') := PostOutcome(store, body, oracle, isValidUrl, id, now);
    NewerLinkListedFirst(store, store', reply.payload.link);
  }

  lemma NewerLinkListedFirst(store: Store, store': Store, link: Link)
    requires link.code !in store && store' == store[link.code := link]
    requires forall c :: c in store ==> store[c].createdAt < link.createdAt
    ensures ListLinks(store')[0] == link
  {
    var listing := ListLinks(store');
    assert store'[link.code] == link;
    var i :| 0 <= i < |listing| && listing[i] == link;
    assert listing[0].createdAt >= link.createdAt by {
      if i > 0 {
        assert listing[0].createdAt >= listing[i].createdAt;
      }
    }
    var d :| d in store' && store'[d] == listing[0];
    assert d == link.code;
  }
}
