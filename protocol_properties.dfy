/**
 * What the client promises about its local state, stated over the reference
 * functions of `Protocol`: per inbound frame, for the handshake, the teardown and
 * the buttons, and as invariants of whole runs of events.
 */
module ProtocolProperties {
  import opened Wrappers
  import opened Text
  import opened Numbers
  import opened Protocol

  /** A points text the points handler accepts: a non-negative 32-bit integer. */
  predicate NonNegativeCount(t: string)
  {
    ParseInt(t).Some? && ParseInt(t).value >= 0
  }

  predicate ValidBalance(p: Option<string>)
  {
    p.None? || NonNegativeCount(p.value)
  }

  /** Neither the in-memory points nor the stored points are ever negative. */
  predicate BalanceInvariant(res: Resources, st: State)
  {
    ValidBalance(st.points) && ValidBalance(StoredPoints(res, st))
  }

  /**
   * The points display shows a non-negative integer, or one of the two fixed
   * texts: no points left, or no stored points to show.
   */
  predicate ValidDisplay(res: Resources, st: State)
  {
    NonNegativeCount(st.pointsText) || st.pointsText == res.noPoints || st.pointsText == res.displayPointsError
  }

  /** A clicks text the clicks handler accepts. */
  predicate ClicksInRange(t: string)
  {
    ParseInt(t).Some? && MinClicks <= ParseInt(t).value <= MaxClicks
  }

  /** The closed outbound vocabulary: `play`, `reset`, `exit`, `noID` and `ID <identity>`. */
  predicate IsOutbound(c: string)
  {
    c == "play" || c == "reset" || c == "exit" || c == "noID" || (|c| >= 3 && c[..3] == "ID ")
  }

  predicate AllOutbound(sent: seq<string>)
  {
    forall i :: 0 <= i < |sent| ==> IsOutbound(sent[i])
  }

  /** A frame made of a tag, one space and a space-free argument arrives as exactly those two tokens. */
  lemma FrameTokens(tag: string, arg: string, frame: string)
    requires ' ' !in tag && ' ' !in arg
    requires frame == tag + " " + arg
    ensures Split(frame, ' ') == [tag, arg]
  {
    assert tag + " " + arg == tag + [' '] + arg;
    SplitPair(tag, arg, ' ');
  }

  // ---------------------------------------------------------------------------
  // One inbound frame

  /** `:id x` stores `x` only when no identity is stored; otherwise nothing changes. */
  lemma IdFrame(res: Resources, st: State, x: string)
    requires ' ' !in x
    ensures OnMessage(res, st, Some(":id " + x))
         == if IdExists(res, st) then st else st.(prefs := st.prefs[res.idKey := x])
  {
    assert ' ' !in IdTag;
    FrameTokens(IdTag, x, ":id " + x);
  }

  /** `:id U99` then `:id U100` on a fresh install leaves `U99` stored. */
  lemma IdSetOnceScenario(res: Resources, st: State)
    requires !IdExists(res, st)
    ensures var first := OnMessage(res, st, Some(":id U99"));
            GetId(res, first) == Some("U99") &&
            GetId(res, OnMessage(res, first, Some(":id U100"))) == Some("U99")
  {
    assert ":id " + "U99" == ":id U99";
    assert ":id " + "U100" == ":id U100";
    IdFrame(res, st, "U99");
    var first := OnMessage(res, st, Some(":id U99"));
    assert first == st.(prefs := st.prefs[res.idKey := "U99"]);
    IdFrame(res, first, "U100");
  }

  /** `:points t` sets both the in-memory points and their display to exactly `t` when `t` is a non-negative integer, and changes nothing otherwise. */
  lemma PointsFrame(res: Resources, st: State, t: string)
    requires ' ' !in t
    ensures OnMessage(res, st, Some(":points " + t))
         == if NonNegativeCount(t) then st.(points := Some(t), pointsText := t) else st
  {
    assert ' ' !in PointsTag;
    FrameTokens(PointsTag, t, ":points " + t);
  }

  /** `:points 7` then `:points -3` leaves `7`. */
  lemma PointsScenario(res: Resources, st: State)
    ensures var last := OnMessage(res, OnMessage(res, st, Some(":points 7")), Some(":points -3"));
            last.points == Some("7") && last.pointsText == "7"
  {
    ParseFormatInt(7);
    ParseFormatInt(-3);
    assert FormatInt(7) == "7";
    assert FormatInt(-3) == "-3";
    assert ":points " + "7" == ":points 7";
    assert ":points " + "-3" == ":points -3";
    PointsFrame(res, st, "7");
    var first := OnMessage(res, st, Some(":points 7"));
    assert first == st.(points := Some("7"), pointsText := "7");
    PointsFrame(res, first, "-3");
  }

  /** `:next t` shows `t` as the clicks remaining only when it is an integer in 0..10. */
  lemma NextFrame(res: Resources, st: State, t: string)
    requires ' ' !in t
    ensures OnMessage(res, st, Some(":next " + t))
         == if ClicksInRange(t) then st.(clicksText := t) else st
  {
    assert ' ' !in NextTag;
    FrameTokens(NextTag, t, ":next " + t);
  }

  /** `:next 15` is out of range and leaves everything as it was. */
  lemma NextScenario(res: Resources, st: State)
    ensures OnMessage(res, st, Some(":next 15")) == st
  {
    ParseFormatInt(15);
    assert FormatInt(15) == "15";
    assert ":next " + "15" == ":next 15";
    NextFrame(res, st, "15");
  }

  /** A frame whose first token is `:nopoints` shows the no-points text, enables reset and disables play, whatever follows the tag. */
  lemma NoPointsFrame(res: Resources, st: State, raw: string)
    requires Split(raw, ' ')[0] == NoPointsTag
    ensures OnMessage(res, st, Some(raw))
         == st.(pointsText := res.noPoints, resetEnabled := true, playEnabled := false)
  {
  }

  /** The bare frame `:nopoints`. */
  lemma NoPointsBareFrame(res: Resources, st: State)
    ensures OnMessage(res, st, Some(":nopoints"))
         == st.(pointsText := res.noPoints, resetEnabled := true, playEnabled := false)
  {
    SplitNoSeparator(NoPointsTag, ' ');
  }

  /** `:won t` only adds the notification `You won t points!`; `t` is not checked to be a number. */
  lemma WonFrame(res: Resources, st: State, t: string)
    requires ' ' !in t
    ensures OnMessage(res, st, Some(":won " + t))
         == st.(notices := st.notices + ["You won " + t + " points!"])
  {
    assert ' ' !in WonTag;
    FrameTokens(WonTag, t, ":won " + t);
  }

  /** A `null` frame and a frame with an unknown first token change nothing. */
  lemma UnknownFrameIgnored(res: Resources, st: State, raw: string)
    requires Split(raw, ' ')[0] !in Tags
    ensures OnMessage(res, st, Some(raw)) == st
    ensures OnMessage(res, st, None) == st
  {
  }

  /** A frame without any space is a tag without an argument, and apart from `:nopoints` it changes nothing. */
  lemma MissingArgumentIgnored(res: Resources, st: State, raw: string)
    requires ' ' !in raw && raw != NoPointsTag
    ensures OnMessage(res, st, Some(raw)) == st
  {
    SplitNoSeparator(raw, ' ');
  }

  /** `:next` and `:points` with an argument that is not an integer change nothing. */
  lemma NonNumericIgnored(res: Resources, st: State, raw: string)
    requires var m := Split(raw, ' ');
             (m[0] == NextTag || m[0] == PointsTag) && |m| >= 2 && ParseInt(m[1]).None?
    ensures OnMessage(res, st, Some(raw)) == st
  {
  }

  /**
   * What any frame can change: never the outbound log nor the stored points; the
   * stored identity only when there was none; the in-memory points only to a
   * non-negative integer; the clicks display only to an integer in 0..10.
   */
  lemma MessageFootprint(res: Resources, st: State, raw: Option<string>)
    requires DistinctKeys(res)
    ensures var next := OnMessage(res, st, raw);
            next.sent == st.sent &&
            StoredPoints(res, next) == StoredPoints(res, st) &&
            (IdExists(res, st) ==> next.prefs == st.prefs) &&
            (next.prefs == st.prefs || next.prefs.Keys == st.prefs.Keys + {res.idKey}) &&
            (next.points == st.points || (next.points.Some? && NonNegativeCount(next.points.value))) &&
            (next.clicksText == st.clicksText || ClicksInRange(next.clicksText))
  {
    if raw.Some? {
      var m := Split(raw.value, ' ');
      if m[0] == IdTag && |m| >= 2 && !IdExists(res, st) {
        var next := SetId(res, st, m[1]);
        assert res.pointsKey in next.prefs <==> res.pointsKey in st.prefs;
      }
    }
  }

  // ---------------------------------------------------------------------------
  // Handshake, teardown and buttons

  /** On open: with a stored identity `I`, send exactly `ID I` and show the stored points (or the error text); without one, send exactly `noID` and touch no display. */
  lemma Handshake(res: Resources, st: State)
    ensures IdExists(res, st) ==>
              OnOpen(res, st) == st.(sent := st.sent + ["ID " + GetId(res, st).value],
                                     pointsText := match StoredPoints(res, st)
                                                   case Some(p) => p
                                                   case None => res.displayPointsError)
    ensures !IdExists(res, st) ==> OnOpen(res, st) == st.(sent := st.sent + ["noID"])
  {
  }

  /** Stored identity `P1` and balance `42`: connecting sends `ID P1` and shows `42`. */
  lemma HandshakeScenario(res: Resources, st: State)
    requires DistinctKeys(res)
    requires st.prefs == map[res.idKey := "P1", res.pointsKey := "42"]
    ensures OnOpen(res, st).sent == st.sent + ["ID P1"]
    ensures OnOpen(res, st).pointsText == "42"
  {
    assert GetId(res, st) == Some("P1");
    assert "ID " + "P1" == "ID P1";
  }

  /** On stop: send `exit`; store the in-memory points only when an identity is stored; never change the identity. */
  lemma Stop(res: Resources, st: State)
    requires DistinctKeys(res)
    ensures var next := OnStop(res, st);
            next.sent == st.sent + ["exit"] &&
            GetId(res, next) == GetId(res, st) &&
            StoredPoints(res, next) == (if IdExists(res, st) then st.points else StoredPoints(res, st)) &&
            next.(prefs := st.prefs, sent := st.sent) == st
  {
  }

  /**
   * The handshake shows the stored points but does not load them into the
   * in-memory points, so stopping before any `:points` frame arrives removes
   * the stored balance.
   */
  lemma OpenThenStopDropsStoredPoints(res: Resources, st: State)
    requires DistinctKeys(res)
    requires IdExists(res, st) && st.points.None?
    ensures StoredPoints(res, OnStop(res, OnOpen(res, st))) == None
  {
  }

  /** Play only sends `play`; reset sends `reset`, disables reset and enables play. */
  lemma Buttons(res: Resources, st: State)
    ensures OnPlayClick(st) == st.(sent := st.sent + ["play"])
    ensures OnResetClick(st) == st.(sent := st.sent + ["reset"], resetEnabled := false, playEnabled := true)
  {
  }

  // ---------------------------------------------------------------------------
  // Whole runs

  lemma StepKeepsIdentity(res: Resources, st: State, e: Event)
    requires DistinctKeys(res) && IdExists(res, st)
    ensures GetId(res, Step(res, st, e)) == GetId(res, st)
  {
    match e
    case Message(raw) => MessageFootprint(res, st, raw);
    case _ =>
  }

  /** Once an identity is stored, no sequence of events changes it. */
  lemma {:induction false} IdentityIsPermanent(res: Resources, st: State, events: seq<Event>)
    decreases |events|
    requires DistinctKeys(res) && IdExists(res, st)
    ensures GetId(res, Run(res, st, events)) == GetId(res, st)
  {
    if events != [] {
      StepKeepsIdentity(res, st, events[0]);
      IdentityIsPermanent(res, Step(res, st, events[0]), events[1..]);
    }
  }

  /** The first `:id` frame on a fresh install decides the identity for the rest of the run. */
  lemma FirstIdentityWins(res: Resources, st: State, x: string, events: seq<Event>)
    requires DistinctKeys(res) && !IdExists(res, st) && ' ' !in x
    ensures GetId(res, Run(res, st, [Message(Some(":id " + x))] + events)) == Some(x)
  {
    var all := [Message(Some(":id " + x))] + events;
    IdFrame(res, st, x);
    var first := Step(res, st, all[0]);
    assert all[1..] == events;
    IdentityIsPermanent(res, first, events);
  }

  lemma StepKeepsBalance(res: Resources, st: State, e: Event)
    requires DistinctKeys(res) && BalanceInvariant(res, st)
    ensures BalanceInvariant(res, Step(res, st, e))
  {
    match e
    case Message(raw) => MessageFootprint(res, st, raw);
    case Stop => Stop(res, st);
    case _ =>
  }

  /** Neither the in-memory nor the stored balance ever becomes negative or non-numeric. */
  lemma {:induction false} BalanceIsNeverNegative(res: Resources, st: State, events: seq<Event>)
    decreases |events|
    requires DistinctKeys(res) && BalanceInvariant(res, st)
    ensures BalanceInvariant(res, Run(res, st, events))
  {
    if events != [] {
      StepKeepsBalance(res, st, events[0]);
      BalanceIsNeverNegative(res, Step(res, st, events[0]), events[1..]);
    }
  }

  lemma StepKeepsDisplay(res: Resources, st: State, e: Event)
    requires DistinctKeys(res) && BalanceInvariant(res, st) && ValidDisplay(res, st)
    ensures ValidDisplay(res, Step(res, st, e))
  {
  }

  /** The points display never shows a negative or non-numeric balance, only a valid one or a fixed text. */
  lemma {:induction false} DisplayIsNeverNegative(res: Resources, st: State, events: seq<Event>)
    decreases |events|
    requires DistinctKeys(res) && BalanceInvariant(res, st) && ValidDisplay(res, st)
    ensures ValidDisplay(res, Run(res, st, events))
  {
    if events != [] {
      StepKeepsBalance(res, st, events[0]);
      StepKeepsDisplay(res, st, events[0]);
      DisplayIsNeverNegative(res, Step(res, st, events[0]), events[1..]);
    }
  }

  /** Once the clicks display shows a value in 0..10, it always does. */
  lemma {:induction false} ClicksStayInRange(res: Resources, st: State, events: seq<Event>)
    decreases |events|
    requires DistinctKeys(res) && ClicksInRange(st.clicksText)
    ensures ClicksInRange(Run(res, st, events).clicksText)
  {
    if events != [] {
      var e := events[0];
      if e.Message? {
        MessageFootprint(res, st, e.raw);
      }
      ClicksStayInRange(res, Step(res, st, e), events[1..]);
    }
  }

  lemma StepSendsOutbound(res: Resources, st: State, e: Event)
    requires DistinctKeys(res)
    ensures var next := Step(res, st, e);
            |st.sent| <= |next.sent| && next.sent[..|st.sent|] == st.sent &&
            forall i :: |st.sent| <= i < |next.sent| ==> IsOutbound(next.sent[i])
  {
    match e
    case Message(raw) => MessageFootprint(res, st, raw);
    case Open =>
      if IdExists(res, st) {
        var c := "ID " + st.prefs[res.idKey];
        assert c[..3] == "ID ";
      }
    case _ =>
  }

  /** Only commands of the closed vocabulary are ever sent, and the log only grows. */
  lemma {:induction false} OnlyOutboundSent(res: Resources, st: State, events: seq<Event>)
    decreases |events|
    requires DistinctKeys(res) && AllOutbound(st.sent)
    ensures var last := Run(res, st, events);
            AllOutbound(last.sent) && |st.sent| <= |last.sent| && last.sent[..|st.sent|] == st.sent
  {
    if events != [] {
      var next := Step(res, st, events[0]);
      StepSendsOutbound(res, st, events[0]);
      OnlyOutboundSent(res, next, events[1..]);
      var last := Run(res, next, events[1..]);
      assert last.sent[..|st.sent|] == last.sent[..|next.sent|][..|st.sent|];
    }
  }
}
