/**
 * The vote endpoint as a pure transition over an abstract key-value store:
 * a fixed-window rate limiter, the tally read with its migration from the
 * retired five-option schema, the per-voter choice migration, and the GET,
 * POST and OPTIONS branches of the request handler. One request is handled
 * at a time; the store's time-to-live is supplied by the caller.
 */
module Votes {
  import opened Options
  import opened ClientIdentity

  const RateLimitMax: int := 10
  const RateLimitWindowSeconds: int := 60
  const NumOptions: int := 4
  const OldNumOptions: int := 5

  function Max(a: int, b: int): (m: int)
    ensures m >= a && m >= b && (m == a || m == b)
  {
    if a >= b then a else b
  }

  function Sum(xs: seq<int>): int {
    if xs == [] then 0 else xs[0] + Sum(xs[1..])
  }

  /** Sum over a tally of the current schema, written out. */
  lemma SumOfFour(t: seq<int>)
    requires |t| == 4
    ensures Sum(t) == t[0] + t[1] + t[2] + t[3]
  {
    assert t[1..][1..][1..][1..] == [];
    assert Sum(t[3..]) == t[3];
    assert Sum(t[2..]) == t[2] + t[3] by { assert t[2..][1..] == t[3..]; }
    assert Sum(t[1..]) == t[1] + t[2] + t[3] by { assert t[1..][1..] == t[2..]; }
  }

  /** Sum over a tally of the retired schema, written out. */
  lemma SumOfFive(t: seq<int>)
    requires |t| == 5
    ensures Sum(t) == t[0] + t[1] + t[2] + t[3] + t[4]
  {
    SumOfFour(t[1..]);
  }

  /** A JSON value as the store returns it: an integer, an array of
      integers, or a value that is neither a number nor an array (arrays
      with other entries are outside the model). */
  datatype Value = Number(n: int) | IntArray(items: seq<int>) | OtherJson

  /** A per-client request counter and whether an expiry is set on it. */
  datatype Window = Window(count: nat, expiring: bool)

  /** The store: the tally key (absent or some value), one choice key per
      voter, one rate-limit counter per client. */
  datatype Store = Store(tally: Option<Value>, choices: map<string, Value>, windows: map<string, Window>)

  datatype RateLimit = RateLimit(allowed: bool, remaining: int, resetIn: int)

  datatype RateCheck = RateCheck(limit: RateLimit, windows: map<string, Window>)

  function CountOf(windows: map<string, Window>, ip: string): nat {
    if ip in windows then windows[ip].count else 0
  }

  /** `checkRateLimit`: increment the client's counter (creating it at 1),
      set the window's expiry on the first increment only, then read the
      time-to-live. `ttl` is what the store reports for a counter with an
      expiry; a counter without one reports -1. */
  function CheckRateLimit(windows: map<string, Window>, ip: string, ttl: int): (r: RateCheck)
    ensures r.windows.Keys == windows.Keys + {ip}
    ensures forall k :: k in windows && k != ip ==> r.windows[k] == windows[k]
    ensures r.windows[ip].count == CountOf(windows, ip) + 1
    ensures r.windows[ip].expiring <==> r.windows[ip].count == 1 || (ip in windows && windows[ip].expiring)
    ensures r.limit.allowed <==> r.windows[ip].count <= RateLimitMax
    ensures 0 <= r.limit.remaining <= RateLimitMax - 1
    ensures r.limit.remaining == Max(0, RateLimitMax - r.windows[ip].count)
    ensures r.limit.resetIn > 0
    ensures r.limit.resetIn == (if r.windows[ip].expiring && ttl > 0 then ttl else RateLimitWindowSeconds)
  {
    var count := CountOf(windows, ip) + 1;
    var expiring := count == 1 || (ip in windows && windows[ip].expiring);
    var reported := if expiring then ttl else -1;
    RateCheck(
      RateLimit(count <= RateLimitMax, Max(0, RateLimitMax - count),
                if reported > 0 then reported else RateLimitWindowSeconds),
      windows[ip := Window(count, expiring)])
  }

  /** The store dropping a counter whose window has lapsed. */
  function ExpireWindow(windows: map<string, Window>, ip: string): (w: map<string, Window>)
    ensures ip !in w
    ensures forall k :: k in windows && k != ip ==> k in w && w[k] == windows[k]
    ensures w.Keys <= windows.Keys
  {
    windows - {ip}
  }

  function Zeros(): (z: seq<int>)
    ensures |z| == NumOptions && Sum(z) == 0
    ensures forall j :: 0 <= j < NumOptions ==> z[j] == 0
  {
    [0, 0, 0, 0]
  }

  /** Old order Terrible, Bad, Okay, Good, Love it; new order Love it, Good,
      Meh, Hate it. Bad and Okay merge into Meh. */
  function MigrateTally(legacy: seq<int>): (t: seq<int>)
    requires |legacy| == OldNumOptions
    ensures |t| == NumOptions
    ensures Sum(t) == Sum(legacy)
    ensures (forall i :: 0 <= i < |legacy| ==> legacy[i] >= 0) ==> forall j :: 0 <= j < |t| ==> t[j] >= 0
  {
    var t := [legacy[4], legacy[3], legacy[1] + legacy[2], legacy[0]];
    SumOfFive(legacy);
    SumOfFour(t);
    t
  }

  /** `migrateUserVote`: a legacy option index to the new index of the same
      sentiment; anything unknown to 0. */
  function MigrateUserVote(oldIndex: int): (j: int)
    ensures 0 <= j < NumOptions
    ensures !(0 <= oldIndex < OldNumOptions) ==> j == 0
  {
    match oldIndex
    case 0 => 3
    case 1 => 2
    case 2 => 2
    case 3 => 1
    case 4 => 0
    case _ => 0
  }

  /** The sum of the legacy slots the choice migration sends to new slot `j`,
      over the first `n` legacy slots. */
  function MigratedInto(legacy: seq<int>, j: int, n: nat): int
    requires n <= |legacy|
  {
    if n == 0 then 0
    else MigratedInto(legacy, j, n - 1) + (if MigrateUserVote(n - 1) == j then legacy[n - 1] else 0)
  }

  /** The tally read: the votes returned and, when a legacy tally was
      migrated, the value written back under the same key. */
  datatype TallyRead = TallyRead(votes: seq<int>, persisted: Option<seq<int>>)

  /** `getVotes`. */
  function GetVotes(stored: Option<Value>): (r: TallyRead)
    ensures |r.votes| == NumOptions
    ensures r.persisted.Some? ==> r.persisted.value == r.votes
    ensures (stored.Some? && stored.value.IntArray? && |stored.value.items| == NumOptions) ==>
      r == TallyRead(stored.value.items, None)
    ensures (stored.Some? && stored.value.IntArray? && |stored.value.items| == OldNumOptions) ==>
      && r.votes == MigrateTally(stored.value.items)
      && r.persisted == Some(r.votes)
      && Sum(r.votes) == Sum(stored.value.items)
    ensures !(stored.Some? && stored.value.IntArray? && |stored.value.items| in {NumOptions, OldNumOptions}) ==>
      r == TallyRead(Zeros(), None)
  {
    match stored
    case Some(IntArray(xs)) =>
      if |xs| == NumOptions then TallyRead(xs, None)
      else if |xs| == OldNumOptions then
        var migrated := MigrateTally(xs);
        TallyRead(migrated, Some(migrated))
      else TallyRead(Zeros(), None)
    case _ => TallyRead(Zeros(), None)
  }

  /** The store after a tally read has written back its migration, if any. */
  function AfterRead(s: Store, read: TallyRead): (s': Store)
    ensures s'.choices == s.choices && s'.windows == s.windows
    ensures read.persisted.None? ==> s' == s
    ensures read.persisted.Some? ==> s'.tally == Some(IntArray(read.persisted.value))
  {
    match read.persisted
    case Some(v) => s.(tally := Some(IntArray(v)))
    case None => s
  }

  /** The `index` field of a POST body. */
  datatype JsonField = Missing | JsonNumber(x: real) | NotANumber

  /** A request body: absent (`undefined` or `null`), or an object. */
  datatype Body = NoBody | JsonObject(index: JsonField)

  datatype Request = Request(verb: string, forwarded: ForwardedFor, remoteAddress: Option<string>, body: Body)

  datatype Payload =
    | NoPayload
    | VoteState(votes: seq<int>, userVote: Option<int>)
    | Failure(error: string)
    | Throttled(error: string, retryAfter: int)

  /** A status, a JSON payload, and the rate-limit headers when they were set. */
  datatype Response = Response(status: int, payload: Payload, rateLimit: Option<RateLimit>)

  datatype Outcome = Outcome(response: Response, store: Store)

  /** The vote index a POST asks for: an integral number in [0, 4). */
  function ValidIndex(f: JsonField): (r: Option<int>)
    ensures r.Some? <==> f.JsonNumber? && f.x == f.x.Floor as real && 0 <= f.x.Floor < NumOptions
    ensures r.Some? ==> r.value as real == f.x && 0 <= r.value < NumOptions
  {
    match f
    case JsonNumber(x) =>
      if x == x.Floor as real && 0.0 <= x && x < NumOptions as real then Some(x.Floor) else None
    case _ => None
  }

  /** The GET branch after the rate limit: the tally read and the voter's
      choice, with a legacy choice of 4 or more migrated and written back. */
  function HandleGet(s: Store, ip: string): (o: Outcome)
    ensures o.response.status == 200
    ensures o.response.payload.VoteState?
    ensures o.response.payload.votes == GetVotes(s.tally).votes
    ensures o.store.tally == AfterRead(s, GetVotes(s.tally)).tally
    ensures o.store.windows == s.windows
    ensures ip !in s.choices || !s.choices[ip].Number? ==>
      o.response.payload.userVote == None && o.store.choices == s.choices
    ensures ip in s.choices && s.choices[ip].Number? && s.choices[ip].n < NumOptions ==>
      o.response.payload.userVote == Some(s.choices[ip].n) && o.store.choices == s.choices
    ensures ip in s.choices && s.choices[ip].Number? && s.choices[ip].n >= NumOptions ==>
      && o.response.payload.userVote == Some(MigrateUserVote(s.choices[ip].n))
      && o.store.choices == s.choices[ip := Number(MigrateUserVote(s.choices[ip].n))]
  {
    var read := GetVotes(s.tally);
    var s1 := AfterRead(s, read);
    if ip in s.choices && s.choices[ip].Number? then
      var raw := s.choices[ip].n;
      if raw >= NumOptions then
        var migrated := MigrateUserVote(raw);
        Outcome(Response(200, VoteState(read.votes, Some(migrated)), None),
                s1.(choices := s1.choices[ip := Number(migrated)]))
      else
        Outcome(Response(200, VoteState(read.votes, Some(raw)), None), s1)
    else
      Outcome(Response(200, VoteState(read.votes, None), None), s1)
  }

  /** The tally after moving a vote to `index`: the previous slot, when it is
      a current-schema index, loses one vote (never going below zero), and
      `index` gains one. */
  function MoveVote(votes: seq<int>, previous: Option<Value>, index: int): (t: seq<int>)
    requires |votes| == NumOptions && 0 <= index < NumOptions
    requires previous != Some(Number(index))
    ensures |t| == NumOptions
    ensures t[index] == votes[index] + 1
    ensures forall j :: 0 <= j < NumOptions && j != index && !(previous == Some(Number(j))) ==> t[j] == votes[j]
    ensures forall j :: 0 <= j < NumOptions && j != index && previous == Some(Number(j)) ==> t[j] == Max(0, votes[j] - 1)
    ensures (forall j :: 0 <= j < NumOptions ==> votes[j] >= 0) ==> forall j :: 0 <= j < NumOptions ==> t[j] >= 0
  {
    var adjusted :=
      if previous.Some? && previous.value.Number? && 0 <= previous.value.n < NumOptions then
        var p := previous.value.n;
        votes[p := Max(0, votes[p] - 1)]
      else votes;
    adjusted[index := adjusted[index] + 1]
  }

  function ChoiceOf(choices: map<string, Value>, ip: string): Option<Value> {
    if ip in choices then Some(choices[ip]) else None
  }

  /** The POST branch after the rate limit. */
  function HandlePost(s: Store, ip: string, body: Body): (o: Outcome)
    ensures o.store.windows == s.windows
    ensures body.NoBody? ==> o.response.status == 500 && o.store == s
    ensures body.JsonObject? && ValidIndex(body.index).None? ==>
      o.response == Response(400, Failure("Invalid vote index"), None) && o.store == s
    ensures body.JsonObject? && ValidIndex(body.index).Some? ==>
      var index := ValidIndex(body.index).value;
      var read := GetVotes(s.tally);
      && o.response.status == 200
      && o.response.payload.VoteState? && o.response.payload.userVote == Some(index)
      && (ChoiceOf(s.choices, ip) == Some(Number(index)) ==>
            o.store == AfterRead(s, read) && o.response.payload.votes == read.votes)
      && (ChoiceOf(s.choices, ip) != Some(Number(index)) ==>
            && o.store.choices == s.choices[ip := Number(index)]
            && o.store.tally == Some(IntArray(o.response.payload.votes))
            && o.response.payload.votes == MoveVote(read.votes, ChoiceOf(s.choices, ip), index))
  {
    match body
    case NoBody => Outcome(Response(500, Failure("Failed to submit vote"), None), s)
    case JsonObject(field) =>
      match ValidIndex(field)
      case None => Outcome(Response(400, Failure("Invalid vote index"), None), s)
      case Some(index) =>
        var previous := ChoiceOf(s.choices, ip);
        var read := GetVotes(s.tally);
        if previous == Some(Number(index)) then
          Outcome(Response(200, VoteState(read.votes, Some(index)), None), AfterRead(s, read))
        else
          var votes := MoveVote(read.votes, previous, index);
          Outcome(Response(200, VoteState(votes, Some(index)), None),
                  s.(tally := Some(IntArray(votes)), choices := s.choices[ip := Number(index)]))
  }

  /** `handler`: OPTIONS answers at once; every other method passes the rate
      limiter first, whose headers then accompany the response. */
  function Handle(s: Store, req: Request, ttl: int): (o: Outcome)
    ensures req.verb == "OPTIONS" ==> o == Outcome(Response(200, NoPayload, None), s)
    ensures req.verb != "OPTIONS" ==>
      var check := CheckRateLimit(s.windows, ClientIp(req.forwarded, req.remoteAddress), ttl);
      && o.store.windows == check.windows
      && o.response.rateLimit == Some(check.limit)
      && (o.response.status == 429 <==> !check.limit.allowed)
      && (!check.limit.allowed ==>
            && o.response.payload == Throttled("Too many requests. Slow down.", check.limit.resetIn)
            && o.store.tally == s.tally && o.store.choices == s.choices)
      && (check.limit.allowed && req.verb == "GET" ==>
            var get := HandleGet(s.(windows := check.windows), ClientIp(req.forwarded, req.remoteAddress));
            && o.store == get.store
            && o.response.status == get.response.status
            && o.response.payload == get.response.payload)
      && (check.limit.allowed && req.verb == "POST" ==>
            var post := HandlePost(s.(windows := check.windows), ClientIp(req.forwarded, req.remoteAddress), req.body);
            && o.store == post.store
            && o.response.status == post.response.status
            && o.response.payload == post.response.payload)
      && (check.limit.allowed && req.verb != "GET" && req.verb != "POST" ==>
            && o.response.status == 405
            && o.store.tally == s.tally && o.store.choices == s.choices)
  {
    if req.verb == "OPTIONS" then
      Outcome(Response(200, NoPayload, None), s)
    else
      var ip := ClientIp(req.forwarded, req.remoteAddress);
      var check := CheckRateLimit(s.windows, ip, ttl);
      var s1 := s.(windows := check.windows);
      var headers := Some(check.limit);
      if !check.limit.allowed then
        Outcome(Response(429, Throttled("Too many requests. Slow down.", check.limit.resetIn), headers), s1)
      else if req.verb == "GET" then
        var o := HandleGet(s1, ip);
        o.(response := o.response.(rateLimit := headers))
      else if req.verb == "POST" then
        var o := HandlePost(s1, ip, req.body);
        o.(response := o.response.(rateLimit := headers))
      else
        Outcome(Response(405, Failure("Method not allowed"), headers), s1)
  }
}
