/**
 * The client's local state and, as pure functions over it, what each handler of
 * `MainActivity` does to it. This is the reference definition the methods of
 * the `MainActivity` class are proved against.
 */
module Protocol {
  import opened Wrappers
  import opened Text
  import opened Numbers

  /**
   * The app's string resources that the handlers use: the two preference keys
   * (`R.string.id_key`, `R.string.points_key`) and two display texts
   * (`R.string.no_points`, `R.string.display_points_error`).
   */
  datatype Resources = Resources(idKey: string, pointsKey: string, noPoints: string, displayPointsError: string)

  /** The two preference entries are distinct keys. */
  predicate DistinctKeys(res: Resources) { res.idKey != res.pointsKey }

  /**
   * Everything the handlers read or write:
   * the activity's preferences, the in-memory `points`, the texts of `tv_points`
   * and `tv_clicks_display`, the enabled flags of `btn_play` and `btn_reset`, every
   * command handed to `sendMsg`, in order, and every snackbar text, in order.
   */
  datatype State = State(
    prefs: map<string, string>,
    points: Option<string>,
    pointsText: string,
    clicksText: string,
    playEnabled: bool,
    resetEnabled: bool,
    sent: seq<string>,
    notices: seq<string>)

  /** What a handler can throw before it has changed anything. */
  datatype Fault = IndexOutOfBounds | NumberFormat

  /** The inbound tags `parse` recognises. */
  const WonTag := ":won"
  const NextTag := ":next"
  const PointsTag := ":points"
  const NoPointsTag := ":nopoints"
  const IdTag := ":id"
  const Tags: set<string> := {WonTag, NextTag, PointsTag, NoPointsTag, IdTag}

  /** The clicks display accepts values in this range only. */
  const MinClicks := 0
  const MaxClicks := 10

  function SendMsg(st: State, msg: string): State
  {
    st.(sent := st.sent + [msg])
  }

  predicate IdExists(res: Resources, st: State)
  {
    res.idKey in st.prefs
  }

  function GetId(res: Resources, st: State): Option<string>
  {
    if res.idKey in st.prefs then Some(st.prefs[res.idKey]) else None
  }

  function StoredPoints(res: Resources, st: State): Option<string>
  {
    if res.pointsKey in st.prefs then Some(st.prefs[res.pointsKey]) else None
  }

  function SetId(res: Resources, st: State, text: string): State
  {
    if IdExists(res, st) then st else st.(prefs := st.prefs[res.idKey := text])
  }

  /** Writing a `null` string to the preferences removes the key. */
  function SetPoints(res: Resources, st: State): State
  {
    if !IdExists(res, st) then st
    else match st.points
      case Some(p) => st.(prefs := st.prefs[res.pointsKey := p])
      case None => st.(prefs := st.prefs - {res.pointsKey})
  }

  function NoPoints(res: Resources, st: State): State
  {
    st.(pointsText := res.noPoints, resetEnabled := true, playEnabled := false)
  }

  function EditNext(st: State, text: string): Result<State, Fault>
  {
    match ParseInt(text)
    case None => Failure(NumberFormat)
    case Some(n) => Success(if n < MinClicks || n > MaxClicks then st else st.(clicksText := text))
  }

  function GetPoints(res: Resources, st: State): State
  {
    match StoredPoints(res, st)
    case Some(p) => st.(pointsText := p)
    case None => st.(pointsText := res.displayPointsError)
  }

  function EditPoints(st: State, text: string): Result<State, Fault>
  {
    match ParseInt(text)
    case None => Failure(NumberFormat)
    case Some(n) => Success(if n < 0 then st else st.(points := Some(text), pointsText := text))
  }

  function WonMessage(text: string): string
  {
    "You won " + text + " points!"
  }

  function WonPoints(st: State, text: string): State
  {
    st.(notices := st.notices + [WonMessage(text)])
  }

  /** `message[1]`, which throws when the frame has no second token. */
  function Argument(message: seq<string>): Result<string, Fault>
  {
    if |message| < 2 then Failure(IndexOutOfBounds) else Success(message[1])
  }

  /** The dispatch of `parse` on the first token. */
  function Parse(res: Resources, st: State, message: seq<string>): Result<State, Fault>
    requires |message| >= 1
  {
    var tag := message[0];
    if tag == NoPointsTag then Success(NoPoints(res, st))
    else if tag !in Tags then Success(st)
    else match Argument(message)
      case Failure(f) => Failure(f)
      case Success(arg) =>
        if tag == WonTag then Success(WonPoints(st, arg))
        else if tag == NextTag then EditNext(st, arg)
        else if tag == PointsTag then EditPoints(st, arg)
        else Success(SetId(res, st, arg))
  }

  /**
   * `onMessage`: a `null` frame is dropped; otherwise the frame is split on spaces
   * and parsed. Whatever `parse` throws reaches the socket's `onError`, which ignores it.
   */
  function OnMessage(res: Resources, st: State, raw: Option<string>): State
  {
    match raw
    case None => st
    case Some(text) =>
      match Parse(res, st, Split(text, ' '))
      case Success(next) => next
      case Failure(_) => st
  }

  /** `onOpen`: announce the stored identity and show the stored points, or say there is none. */
  function OnOpen(res: Resources, st: State): State
  {
    if IdExists(res, st) then GetPoints(res, SendMsg(st, "ID " + st.prefs[res.idKey]))
    else SendMsg(st, "noID")
  }

  /** `onStop`: say goodbye and persist the in-memory points. */
  function OnStop(res: Resources, st: State): State
  {
    SetPoints(res, SendMsg(st, "exit"))
  }

  function OnPlayClick(st: State): State
  {
    SendMsg(st, "play")
  }

  function OnResetClick(st: State): State
  {
    SendMsg(st, "reset").(resetEnabled := false, playEnabled := true)
  }

  /** The events the activity reacts to, for reasoning about whole runs. */
  datatype Event = Message(raw: Option<string>) | Open | Stop | PlayClick | ResetClick

  function Step(res: Resources, st: State, e: Event): State
  {
    match e
    case Message(raw) => OnMessage(res, st, raw)
    case Open => OnOpen(res, st)
    case Stop => OnStop(res, st)
    case PlayClick => OnPlayClick(st)
    case ResetClick => OnResetClick(st)
  }

  function Run(res: Resources, st: State, events: seq<Event>): State
    decreases |events|
  {
    if events == [] then st else Run(res, Step(res, st, events[0]), events[1..])
  }
}
