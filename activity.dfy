/**
 * `MainActivity` as a class whose fields are the state its handlers change in
 * place. Each method does what its Kotlin counterpart does, step by step, and is
 * proved to move `Snapshot()` exactly as the matching `Protocol` function says.
 * A Kotlin exception is an out-parameter `fault`, set on a path that has changed
 * nothing.
 */
module Activity {
  import opened Wrappers
  import opened Text
  import opened Numbers
  import Protocol

  class MainActivity {
    /** The string resources the handlers read. */
    const res: Protocol.Resources
    /** The activity's private SharedPreferences, read and written synchronously. */
    var prefs: map<string, string>
    /** The in-memory `points` field. */
    var points: Option<string>
    /** `tv_points.text` and `tv_clicks_display.text`. */
    var pointsText: string
    var clicksText: string
    /** `btn_play.isEnabled` and `btn_reset.isEnabled`. */
    var playEnabled: bool
    var resetEnabled: bool
    /** Every command handed to `sendMsg`, in the order the handlers issued them. */
    var sent: seq<string>
    /** Every snackbar text shown, in order. */
    var notices: seq<string>

    function Snapshot(): Protocol.State
      reads this
    {
      Protocol.State(prefs, points, pointsText, clicksText, playEnabled, resetEnabled, sent, notices)
    }

    /** `onCreate`: the preferences left by earlier runs, and the views as the layout inflates them. */
    constructor (res: Protocol.Resources, prefs: map<string, string>,
                 pointsText: string, clicksText: string, playEnabled: bool, resetEnabled: bool)
      ensures this.res == res
      ensures Snapshot() == Protocol.State(prefs, None, pointsText, clicksText, playEnabled, resetEnabled, [], [])
    {
      this.res := res;
      this.prefs := prefs;
      this.points := None;
      this.pointsText := pointsText;
      this.clicksText := clicksText;
      this.playEnabled := playEnabled;
      this.resetEnabled := resetEnabled;
      this.sent := [];
      this.notices := [];
    }

    method SendMsg(msg: string)
      modifies this
      ensures Snapshot() == Protocol.SendMsg(old(Snapshot()), msg)
    {
      sent := sent + [msg];
    }

    method IdExists() returns (present: bool)
      ensures present <==> res.idKey in prefs
    {
      present := res.idKey in prefs;
    }

    method GetId() returns (id: Option<string>)
      ensures id.Some? <==> res.idKey in prefs
      ensures id.Some? ==> id.value == prefs[res.idKey]
    {
      if res.idKey in prefs {
        id := Some(prefs[res.idKey]);
      } else {
        id := None;
      }
    }

    method SetId(text: string)
      modifies this
      ensures Snapshot() == Protocol.SetId(res, old(Snapshot()), text)
    {
      var present := IdExists();
      if !present {
        prefs := prefs[res.idKey := text];
      }
    }

    method SetPoints()
      modifies this
      ensures Snapshot() == Protocol.SetPoints(res, old(Snapshot()))
    {
      var present := IdExists();
      if present {
        match points
        case Some(p) => prefs := prefs[res.pointsKey := p];
        case None => prefs := prefs - {res.pointsKey};
      }
    }

    method NoPoints()
      modifies this
      ensures Snapshot() == Protocol.NoPoints(res, old(Snapshot()))
    {
      pointsText := res.noPoints;
      resetEnabled := true;
      playEnabled := false;
    }

    method EditNext(text: string) returns (fault: Option<Protocol.Fault>)
      modifies this
      ensures fault.Some? ==> Snapshot() == old(Snapshot())
      ensures Protocol.EditNext(old(Snapshot()), text)
           == if fault.None? then Success(Snapshot()) else Failure(fault.value)
    {
      var n := ParseInt(text);
      if n.None? {
        return Some(Protocol.NumberFormat);
      }
      if n.value < Protocol.MinClicks || n.value > Protocol.MaxClicks {
        return None;
      }
      clicksText := text;
      return None;
    }

    method GetPoints()
      modifies this
      ensures Snapshot() == Protocol.GetPoints(res, old(Snapshot()))
    {
      if res.pointsKey in prefs {
        pointsText := prefs[res.pointsKey];
      } else {
        pointsText := res.displayPointsError;
      }
    }

    method EditPoints(text: string) returns (fault: Option<Protocol.Fault>)
      modifies this
      ensures fault.Some? ==> Snapshot() == old(Snapshot())
      ensures Protocol.EditPoints(old(Snapshot()), text)
           == if fault.None? then Success(Snapshot()) else Failure(fault.value)
    {
      var n := ParseInt(text);
      if n.None? {
        return Some(Protocol.NumberFormat);
      }
      if n.value < 0 {
        return None;
      }
      points := Some(text);
      pointsText := text;
      return None;
    }

    method WonPoints(text: string)
      modifies this
      ensures Snapshot() == Protocol.WonPoints(old(Snapshot()), text)
    {
      notices := notices + [Protocol.WonMessage(text)];
    }

    /** `parse`: dispatch on the first token; `message[1]` throws when there is no second one. */
    method Parse(message: seq<string>) returns (fault: Option<Protocol.Fault>)
      requires |message| >= 1
      modifies this
      ensures fault.Some? ==> Snapshot() == old(Snapshot())
      ensures Protocol.Parse(res, old(Snapshot()), message)
           == if fault.None? then Success(Snapshot()) else Failure(fault.value)
    {
      var tag := message[0];
      fault := None;
      if tag == Protocol.WonTag {
        if |message| < 2 { return Some(Protocol.IndexOutOfBounds); }
        WonPoints(message[1]);
      } else if tag == Protocol.NextTag {
        if |message| < 2 { return Some(Protocol.IndexOutOfBounds); }
        fault := EditNext(message[1]);
      } else if tag == Protocol.PointsTag {
        if |message| < 2 { return Some(Protocol.IndexOutOfBounds); }
        fault := EditPoints(message[1]);
      } else if tag == Protocol.NoPointsTag {
        NoPoints();
      } else if tag == Protocol.IdTag {
        if |message| < 2 { return Some(Protocol.IndexOutOfBounds); }
        SetId(message[1]);
      }
    }

    /** `ClientWebSocket.onMessage`: what `parse` throws goes to the empty `onError` and is dropped. */
    method OnMessage(raw: Option<string>)
      modifies this
      ensures Snapshot() == Protocol.OnMessage(res, old(Snapshot()), raw)
    {
      if raw.Some? {
        var fault := Parse(Split(raw.value, ' '));
      }
    }

    /** `ClientWebSocket.onOpen`: the identity handshake. */
    method OnOpen()
      modifies this
      ensures Snapshot() == Protocol.OnOpen(res, old(Snapshot()))
    {
      var present := IdExists();
      if present {
        var id := GetId();
        if id.Some? {
          SendMsg("ID " + id.value);
        }
        GetPoints();
      } else {
        SendMsg("noID");
      }
    }

    /** `onStop`: send `exit`, then persist the points. */
    method OnStop()
      modifies this
      ensures Snapshot() == Protocol.OnStop(res, old(Snapshot()))
    {
      SendMsg("exit");
      SetPoints();
    }

    /** The click listener of `btn_play`. */
    method OnPlayClick()
      modifies this
      ensures Snapshot() == Protocol.OnPlayClick(old(Snapshot()))
    {
      SendMsg("play");
    }

    /** The click listener of `btn_reset`. */
    method OnResetClick()
      modifies this
      ensures Snapshot() == Protocol.OnResetClick(old(Snapshot()))
    {
      SendMsg("reset");
      resetEnabled := false;
      playEnabled := true;
    }
  }
}
