/** The upstream feed client (padre_tracker.py): the opening handshake, the token refresh
    decision, and the processing of one inbound frame of the receive loop. Socket I/O, msgpack,
    the clock and the random generator are parameters. */
module Tracker {
  import opened Common
  import opened Text

  const FeedTopicPrefix := "/twitter/tweet/subscribe-feed/v3/"
  const FeedTopicSuffix := "?encodedCategoryFilters=&onlySubscribedAccounts=1"
  const TrenchesTopic := "/frontend/trenches/v2"
  /** `string.ascii_lowercase + string.digits`. */
  const SessionAlphabet := "abcdefghijklmnopqrstuvwxyz0123456789"

  // ---------------------------------------------------------------------------------------
  // Outgoing frames

  /** `[1, token, session_id]`: opcode 1, then the token, then the session id. */
  function AuthFrame(token: Value, sessionId: string): (r: Value)
    ensures r.Arr? && |r.items| == 3 && EqualsInt(r.items[0], 1)
    ensures r.items[1] == token && r.items[2] == Str(sessionId)
  {
    Arr([Int(1), token, Str(sessionId)])
  }

  /** `[4, request_id, topic]`: opcode 4, then the request id, then the topic. */
  function SubscribeFrame(requestId: int, topic: string): (r: Value)
    ensures r.Arr? && |r.items| == 3 && EqualsInt(r.items[0], 4)
    ensures r.items[1] == Int(requestId) && r.items[2] == Str(topic)
  {
    Arr([Int(4), Int(requestId), Str(topic)])
  }

  /** `[3]`, sent every 15 seconds by the heartbeat task: opcode 3 and nothing else. */
  function HeartbeatFrame(): (r: Value)
    ensures r.Arr? && |r.items| == 1 && EqualsInt(r.items[0], 3)
  {
    Arr([Int(3)])
  }

  /** The personal tweet feed of the configured user: the user id sits between the fixed
      path and the fixed query, so different users get different topics. */
  function FeedTopic(uid: string): (r: string)
    ensures |r| == |FeedTopicPrefix| + |uid| + |FeedTopicSuffix|
    ensures r[..|FeedTopicPrefix|] == FeedTopicPrefix
    ensures r[|FeedTopicPrefix|..|FeedTopicPrefix| + |uid|] == uid
    ensures r[|FeedTopicPrefix| + |uid|..] == FeedTopicSuffix
  {
    FeedTopicPrefix + uid + FeedTopicSuffix
  }

  // ---------------------------------------------------------------------------------------
  // Session identifiers

  predicate IsSessionChar(c: char)
  {
    'a' <= c <= 'z' || '0' <= c <= '9'
  }

  /** "d-" followed by eleven lower-case letters or digits. */
  predicate IsSessionId(s: string)
  {
    |s| == 13 && s[..2] == "d-" && forall i :: 2 <= i < 13 ==> IsSessionChar(s[i])
  }

  /** The eleven results of `random.choice(chars)`, as positions in the alphabet. */
  predicate ValidPicks(picks: seq<int>)
  {
    |picks| == 11 && forall i :: 0 <= i < 11 ==> 0 <= picks[i] < |SessionAlphabet|
  }

  /** The position of an alphabet character, the inverse of indexing the alphabet. */
  function PickOf(c: char): int
  {
    if 'a' <= c <= 'z' then c as int - 'a' as int else c as int - '0' as int + 26
  }

  lemma AlphabetChars()
    ensures forall k :: 0 <= k < |SessionAlphabet| ==>
      IsSessionChar(SessionAlphabet[k]) && PickOf(SessionAlphabet[k]) == k
  {
  }

  /** Every letter or digit sits in the alphabet at the position `PickOf` gives. */
  lemma AlphabetIndex(c: char)
    requires IsSessionChar(c)
    ensures 0 <= PickOf(c) < |SessionAlphabet| && SessionAlphabet[PickOf(c)] == c
  {
    var k := PickOf(c);
    AlphabetChars();
    var d := SessionAlphabet[k];
    assert IsSessionChar(d) && PickOf(d) == k;
  }

  /** `get_session_id()` for the given random picks. */
  function SessionId(picks: seq<int>): (id: string)
    requires ValidPicks(picks)
    ensures IsSessionId(id)
    ensures forall i :: 0 <= i < 11 ==> PickOf(id[i + 2]) == picks[i]
  {
    AlphabetChars();
    "d-" + seq(11, i requires 0 <= i < 11 => SessionAlphabet[picks[i]])
  }

  /** Every well-formed identifier is produced by exactly one sequence of picks: the format
      is all that `get_session_id` promises, and different picks give different ids. */
  lemma SessionIdBijective(id: string, picks: seq<int>, other: seq<int>)
    requires IsSessionId(id)
    requires ValidPicks(picks) && ValidPicks(other)
    ensures var p := seq(11, i requires 0 <= i < 11 => PickOf(id[i + 2]));
      ValidPicks(p) && SessionId(p) == id
    ensures SessionId(picks) == SessionId(other) ==> picks == other
  {
    var p := seq(11, i requires 0 <= i < 11 => PickOf(id[i + 2]));
    forall i | 0 <= i < 11
      ensures 0 <= p[i] < |SessionAlphabet| && SessionAlphabet[p[i]] == id[i + 2]
    {
      AlphabetIndex(id[i + 2]);
    }
    assert SessionId(p) == id;
    if SessionId(picks) == SessionId(other) {
      assert forall i :: 0 <= i < 11 ==> picks[i] == PickOf(SessionId(picks)[i + 2]) == other[i];
    }
  }

  // ---------------------------------------------------------------------------------------
  // Token refresh

  /** What the POST to the token endpoint produced: the parsed JSON body, or an exception
      raised anywhere on the way (connection, HTTP, a body that is not JSON). */
  datatype RefreshReply = Raised | Body(data: Value)

  /** The value `refresh_session()` returns and the value `config.PADRE_TOKEN` holds after it. */
  datatype RefreshOutcome = RefreshOutcome(result: Option<Value>, configToken: Value)

  /** `refresh_session()`: the body's `access_token` when the body is an object holding that
      key, `None` otherwise. A body that is a string or a list either fails the `in` test or
      raises when indexed by a string; both end in `None`. */
  function Refresh(reply: RefreshReply, configToken: Value): (r: RefreshOutcome)
    ensures r.result.Some? <==> reply.Body? && reply.data.Dict? && "access_token" in reply.data.fields
    ensures r.result.Some? ==> r.result.value == reply.data.fields["access_token"]
    ensures r.configToken == if r.result.Some? then r.result.value else configToken
  {
    match reply
    case Raised => RefreshOutcome(None, configToken)
    case Body(data) =>
      if data.Dict? && "access_token" in data.fields then
        var newToken := data.fields["access_token"];
        RefreshOutcome(Some(newToken), newToken)
      else
        RefreshOutcome(None, configToken)
  }

  /** `if config.PADRE_REFRESH_TOKEN:` — a set, non-empty refresh token. */
  predicate RefreshConfigured(refreshToken: Option<string>)
  {
    refreshToken.Some? && refreshToken.value != ""
  }

  /** The token sent in the auth frame, and `config.PADRE_TOKEN` afterwards. */
  datatype Credentials = Credentials(token: Value, configToken: Value)

  function SessionToken(configToken: Value, refreshToken: Option<string>, reply: RefreshReply): (c: Credentials)
    ensures !RefreshConfigured(refreshToken) ==> c == Credentials(configToken, configToken)
    ensures RefreshConfigured(refreshToken) ==>
      c.token == (if reply.Body? && reply.data.Dict? && "access_token" in reply.data.fields
                  then reply.data.fields["access_token"] else Nil)
    ensures c.configToken != configToken ==> c.token == c.configToken
  {
    if RefreshConfigured(refreshToken) then
      var out := Refresh(reply, configToken);
      Credentials(match out.result case Some(t) => t case None => Nil, out.configToken)
    else
      Credentials(configToken, configToken)
  }

  // ---------------------------------------------------------------------------------------
  // Inbound frames

  /** The wall clock when a frame is processed: `get_current_ts_ms()` and the `%H:%M:%S.mmm` text. */
  datatype Clock = Clock(ms: int, human: string)

  /** One message of the receive loop, already through `msgpack.unpackb`. */
  datatype Arrival = Arrival(decoded: Value, clock: Clock)

  /** The record forwarded to the relay. */
  datatype Envelope = Envelope(
    timestamp: int,
    timestampHuman: string,
    source: string,
    isTargetMatch: bool,
    event: Value)

  /** What one iteration of the receive loop did with its frame. */
  datatype Outcome =
    | NotAList              // `continue`: the decoded value is not a list
    | Swallowed             // an IndexError raised and silently caught
    | Confirmed             // first 1/3/4 frame: auth confirmed
    | Ignored               // any other frame: nothing happens
    | Dropped               // data frame dropped by the filter-only mode
    | Emitted(envelope: Envelope)

  /** `config.TARGET_USERNAMES` and `config.FILTER_ONLY_TARGETS`. */
  datatype Filter = Filter(targets: seq<string>, filterOnly: bool)

  datatype StepResult = StepResult(authConfirmed: bool, outcome: Outcome)

  /** `msg_type in [1, 3, 4]`. */
  predicate IsAckType(msgType: Value)
  {
    EqualsInt(msgType, 1) || EqualsInt(msgType, 3) || EqualsInt(msgType, 4)
  }

  /** A non-empty list whose leading element is 1, 3 or 4. */
  predicate ConfirmsAuth(v: Value)
  {
    v.Arr? && |v.items| > 0 && IsAckType(v.items[0])
  }

  /** A list whose leading element is 5 (a data frame, well-formed or not). */
  predicate IsDataType(v: Value)
  {
    v.Arr? && |v.items| > 0 && EqualsInt(v.items[0], 5)
  }

  /** A data frame long enough to carry a payload at index 2. */
  predicate IsDataFrame(v: Value)
  {
    IsDataType(v) && |v.items| >= 3
  }

  /** Some configured target, lower-cased, is a substring of the lower-cased rendering. */
  predicate TargetMatch(targets: seq<string>, rendered: string)
  {
    exists i | 0 <= i < |targets| :: Contains(Lower(rendered), Lower(targets[i]))
  }

  /** Every target lower-cased. */
  function LowerAll(targets: seq<string>): (r: seq<string>)
    ensures |r| == |targets| && forall i :: 0 <= i < |targets| ==> r[i] == Lower(targets[i])
  {
    seq(|targets|, i requires 0 <= i < |targets| => Lower(targets[i]))
  }

  /** Matching ignores case on both sides and never holds without targets. */
  lemma TargetMatchIgnoresCase(targets: seq<string>, rendered: string)
    ensures TargetMatch(targets, Lower(rendered)) == TargetMatch(targets, rendered)
    ensures TargetMatch(LowerAll(targets), rendered) == TargetMatch(targets, rendered)
    ensures targets == [] ==> !TargetMatch(targets, rendered)
  {
    LowerIdempotent(rendered);
    forall i | 0 <= i < |targets|
      ensures Lower(LowerAll(targets)[i]) == Lower(targets[i])
    {
      LowerIdempotent(targets[i]);
    }
  }

  /** Target `i` occurs at position `j` of the text `hay`. */
  predicate TargetOccursAt(targets: seq<string>, hay: string, i: int, j: int)
  {
    0 <= i < |targets| && OccursAt(hay, Lower(targets[i]), j)
  }

  /** Matching holds exactly when some lower-cased target occurs at some position of the
      lower-cased rendering. */
  lemma TargetMatchIffOccurs(targets: seq<string>, rendered: string)
    ensures TargetMatch(targets, rendered) <==>
      exists i, j :: TargetOccursAt(targets, Lower(rendered), i, j)
  {
    var hay := Lower(rendered);
    if TargetMatch(targets, rendered) {
      var i :| 0 <= i < |targets| && Contains(hay, Lower(targets[i]));
      ContainsIffOccurs(hay, Lower(targets[i]));
      var j :| OccursAt(hay, Lower(targets[i]), j);
      assert TargetOccursAt(targets, hay, i, j);
    }
    if exists i, j :: TargetOccursAt(targets, hay, i, j) {
      var i, j :| TargetOccursAt(targets, hay, i, j);
      OccursContains(hay, Lower(targets[i]), j);
      assert Contains(Lower(rendered), Lower(targets[i]));
    }
  }

  /** The `event_data` record: the clock's two timestamps, source `"padre"`, the match flag and
      the payload unchanged. */
  function MakeEnvelope(clock: Clock, isMatch: bool, payload: Value): (e: Envelope)
    ensures e.timestamp == clock.ms && e.timestampHuman == clock.human
    ensures e.source == "padre" && e.isTargetMatch == isMatch && e.event == payload
  {
    Envelope(clock.ms, clock.human, "padre", isMatch, payload)
  }

  /** One iteration of the receive loop, as a function of the auth flag before it. */
  function StepSpec(auth: bool, a: Arrival, f: Filter, render: Value -> string): (r: StepResult)
    ensures r.authConfirmed == (auth || ConfirmsAuth(a.decoded))
    ensures r.outcome == Confirmed <==> !auth && ConfirmsAuth(a.decoded)
    ensures r.outcome == NotAList <==> !a.decoded.Arr?
    ensures r.outcome == Swallowed <==> a.decoded == Arr([]) || (IsDataType(a.decoded) && |a.decoded.items| < 3)
    ensures r.outcome.Dropped? <==>
      IsDataFrame(a.decoded) && f.filterOnly && !TargetMatch(f.targets, render(a.decoded.items[2]))
    ensures r.outcome.Emitted? <==>
      IsDataFrame(a.decoded) && !(f.filterOnly && !TargetMatch(f.targets, render(a.decoded.items[2])))
    ensures r.outcome.Emitted? ==>
      var payload := a.decoded.items[2];
      r.outcome.envelope.source == "padre" && r.outcome.envelope.event == payload
      && r.outcome.envelope.isTargetMatch == TargetMatch(f.targets, render(payload))
      && r.outcome.envelope.timestamp == a.clock.ms
      && r.outcome.envelope.timestampHuman == a.clock.human
  {
    match a.decoded
    case Arr(decoded) =>
      if |decoded| == 0 then StepResult(auth, Swallowed)
      else
        var msgType := decoded[0];
        if IsAckType(msgType) && !auth then StepResult(true, Confirmed)
        else if EqualsInt(msgType, 5) then
          if |decoded| < 3 then StepResult(auth, Swallowed)
          else
            var payload := decoded[2];
            var isMatch := TargetMatch(f.targets, render(payload));
            if f.filterOnly && !isMatch then StepResult(auth, Dropped)
            else StepResult(auth, Emitted(MakeEnvelope(a.clock, isMatch, payload)))
        else StepResult(auth, Ignored)
    case _ => StepResult(auth, NotAList)
  }

  datatype RunResult = RunResult(authConfirmed: bool, outcomes: seq<Outcome>)

  /** The receive loop over a sequence of arrivals, one `StepSpec` per frame: one outcome per
      frame, and once auth is confirmed it stays confirmed and is never reported again. */
  function Run(auth: bool, arrivals: seq<Arrival>, f: Filter, render: Value -> string): (r: RunResult)
    ensures |r.outcomes| == |arrivals|
    ensures auth ==> r.authConfirmed && Confirmed !in r.outcomes
  {
    if arrivals == [] then RunResult(auth, [])
    else
      var prev := Run(auth, arrivals[..|arrivals| - 1], f, render);
      var step := StepSpec(prev.authConfirmed, arrivals[|arrivals| - 1], f, render);
      RunResult(step.authConfirmed, prev.outcomes + [step.outcome])
  }

  /** Processing more frames never changes what was done with the earlier ones. */
  lemma {:induction false} RunPrefix(auth: bool, arrivals: seq<Arrival>, n: nat, f: Filter, render: Value -> string)
    requires n <= |arrivals|
    ensures Run(auth, arrivals[..n], f, render).outcomes == Run(auth, arrivals, f, render).outcomes[..n]
    decreases |arrivals|
  {
    if n < |arrivals| {
      var init := arrivals[..|arrivals| - 1];
      RunPrefix(auth, init, n, f, render);
      assert init[..n] == arrivals[..n];
    } else {
      assert arrivals[..n] == arrivals;
    }
  }

  /** After a run, auth is confirmed exactly when it was before or some frame had opcode 1, 3 or 4. */
  lemma {:induction false} RunAuth(auth: bool, arrivals: seq<Arrival>, f: Filter, render: Value -> string)
    ensures Run(auth, arrivals, f, render).authConfirmed <==>
      auth || exists i :: 0 <= i < |arrivals| && ConfirmsAuth(arrivals[i].decoded)
    decreases |arrivals|
  {
    if arrivals != [] {
      var init := arrivals[..|arrivals| - 1];
      RunAuth(auth, init, f, render);
      if exists i :: 0 <= i < |init| && ConfirmsAuth(init[i].decoded) {
        var i :| 0 <= i < |init| && ConfirmsAuth(init[i].decoded);
        assert arrivals[i] == init[i];
      }
      if exists i :: 0 <= i < |arrivals| && ConfirmsAuth(arrivals[i].decoded) {
        var i :| 0 <= i < |arrivals| && ConfirmsAuth(arrivals[i].decoded);
        if i < |init| {
          assert init[i] == arrivals[i];
        }
      }
    }
  }

  /** The i-th outcome of a run is the step of the i-th frame from the auth flag the earlier
      frames left behind. */
  lemma RunOutcomeAt(auth: bool, arrivals: seq<Arrival>, i: nat, f: Filter, render: Value -> string)
    requires i < |arrivals|
    ensures Run(auth, arrivals, f, render).outcomes[i]
      == StepSpec(Run(auth, arrivals[..i], f, render).authConfirmed, arrivals[i], f, render).outcome
  {
    RunPrefix(auth, arrivals, i + 1, f, render);
    var pre := arrivals[..i + 1];
    assert pre[..i] == arrivals[..i];
    assert pre[i] == arrivals[i];
  }

  /** Auth is confirmed once per session: a frame yields `Confirmed` exactly when it is the
      first frame with opcode 1, 3 or 4 and auth was not confirmed when the run began. */
  lemma ConfirmedExactlyAtFirstAck(auth: bool, arrivals: seq<Arrival>, i: nat, f: Filter, render: Value -> string)
    requires i < |arrivals|
    ensures Run(auth, arrivals, f, render).outcomes[i] == Confirmed <==>
      !auth && ConfirmsAuth(arrivals[i].decoded)
      && forall j :: 0 <= j < i ==> !ConfirmsAuth(arrivals[j].decoded)
  {
    RunOutcomeAt(auth, arrivals, i, f, render);
    RunAuth(auth, arrivals[..i], f, render);
    assert forall j :: 0 <= j < i ==> arrivals[..i][j] == arrivals[j];
  }

  /** Data frames are processed the same way whether or not auth has been confirmed. */
  lemma DataIndependentOfAuth(a: Arrival, f: Filter, render: Value -> string)
    requires IsDataType(a.decoded)
    ensures StepSpec(false, a, f, render).outcome == StepSpec(true, a, f, render).outcome
  {
  }

  /** The target loop of the receive loop: a `for` with a `break` on the first target whose
      lower-cased form occurs in the (already lower-cased) payload text. */
  method MatchTargets(targets: seq<string>, payloadStr: string) returns (isMatch: bool)
    ensures isMatch <==> exists i :: 0 <= i < |targets| && Contains(payloadStr, Lower(targets[i]))
    ensures targets == [] ==> !isMatch
  {
    isMatch := false;
    if |targets| > 0 {
      var k := 0;
      while k < |targets|
        invariant 0 <= k <= |targets|
        invariant !isMatch
        invariant forall i :: 0 <= i < k ==> !Contains(payloadStr, Lower(targets[i]))
      {
        if Contains(payloadStr, Lower(targets[k])) {
          isMatch := true;
          break;
        }
        k := k + 1;
      }
    }
  }

  /** `ConnectionState`: the per-session state of the tracker. */
  class ConnectionState {
    var authConfirmed: bool
    var reqIdCounter: int
    /** Set in `__init__` and never written to. */
    var subscriptions: map<int, string>

    constructor ()
      ensures !authConfirmed && reqIdCounter == 1 && subscriptions == map[]
    {
      authConfirmed := false;
      reqIdCounter := 1;
      subscriptions := map[];
    }

    /** Sends a subscribe frame under the current request id and advances the counter. */
    method Subscribe(topic: string) returns (frame: Value)
      modifies this`reqIdCounter
      ensures frame == SubscribeFrame(old(reqIdCounter), topic)
      ensures reqIdCounter == old(reqIdCounter) + 1
    {
      frame := SubscribeFrame(reqIdCounter, topic);
      reqIdCounter := reqIdCounter + 1;
    }

    /** One iteration of `async for raw_msg in ws`. */
    method Step(a: Arrival, f: Filter, render: Value -> string) returns (outcome: Outcome)
      modifies this`authConfirmed
      ensures StepResult(authConfirmed, outcome) == StepSpec(old(authConfirmed), a, f, render)
    {
      if !a.decoded.Arr? {
        return NotAList;
      }
      var decoded := a.decoded.items;
      if |decoded| == 0 {
        return Swallowed;
      }
      var msgType := decoded[0];
      if IsAckType(msgType) && !authConfirmed {
        authConfirmed := true;
        return Confirmed;
      } else if EqualsInt(msgType, 5) {
        if |decoded| < 3 {
          return Swallowed;
        }
        var payload := decoded[2];
        var payloadStr := Lower(render(payload));
        var isMatch := MatchTargets(f.targets, payloadStr);
        if f.filterOnly && !isMatch {
          return Dropped;
        }
        return Emitted(MakeEnvelope(a.clock, isMatch, payload));
      }
      return Ignored;
    }

    /** The receive loop over the frames that arrive before the socket closes. */
    method Receive(arrivals: seq<Arrival>, f: Filter, render: Value -> string) returns (outcomes: seq<Outcome>)
      modifies this`authConfirmed
      ensures RunResult(authConfirmed, outcomes) == Run(old(authConfirmed), arrivals, f, render)
    {
      outcomes := [];
      var i := 0;
      while i < |arrivals|
        invariant 0 <= i <= |arrivals|
        invariant RunResult(authConfirmed, outcomes) == Run(old(authConfirmed), arrivals[..i], f, render)
      {
        assert arrivals[..i + 1][..i] == arrivals[..i];
        var outcome := Step(arrivals[i], f, render);
        outcomes := outcomes + [outcome];
        i := i + 1;
      }
      assert arrivals[..i] == arrivals;
    }
  }

  /** The opening of `padre_tracker()`: choose the token, send the auth frame, then subscribe
      to the personal feed and to the trenches topic under request ids 1 and 2. */
  method OpenSession(configToken: Value, refreshToken: Option<string>, reply: RefreshReply,
                     picks: seq<int>, uid: string)
    returns (state: ConnectionState, sent: seq<Value>, creds: Credentials)
    requires ValidPicks(picks)
    ensures fresh(state)
    ensures creds == SessionToken(configToken, refreshToken, reply)
    ensures sent == [AuthFrame(creds.token, SessionId(picks)),
                     SubscribeFrame(1, FeedTopic(uid)),
                     SubscribeFrame(2, TrenchesTopic)]
    ensures !state.authConfirmed && state.reqIdCounter == 3 && state.subscriptions == map[]
  {
    var sessionId := SessionId(picks);
    state := new ConnectionState();
    creds := SessionToken(configToken, refreshToken, reply);
    sent := [AuthFrame(creds.token, sessionId)];
    var feed := state.Subscribe(FeedTopic(uid));
    var trenches := state.Subscribe(TrenchesTopic);
    sent := sent + [feed, trenches];
  }
}
