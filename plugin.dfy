/**
 * ExecuteCommand of server/plugin.go: split the command line into tokens,
 * refuse anything that is not "/stress", pick the handler named by the
 * second token, pass it the tokens after that, and answer with the
 * handler's result and the elapsed time split by fmtDuration.
 */
module Plugin {
  import opened Strings
  import opened Durations
  import Gateway
  import C = Commands

  datatype Subcommand = Setup | Teardown | DeleteAll | Read | Save

  function Name(sub: Subcommand): string {
    match sub
    case Setup => "setup"
    case Teardown => "teardown"
    case DeleteAll => "deleteall"
    case Read => "read"
    case Save => "save"
  }

  /** What the switch of ExecuteCommand does with a command line. */
  datatype Route =
    | NotStress(command: string)
    | Invoke(sub: Subcommand, parameters: seq<string>)
    | ShowIndex
    | Unmatched

  /** The first token must be "/stress"; strings.Fields must yield at least one token, since split[0] is read unguarded. */
  function RouteOf(command: string): (r: Route)
    requires |Fields(command)| > 0
    ensures r.NotStress? <==> Fields(command)[0] != "/stress"
    ensures r.Invoke? ==>
      |Fields(command)| > 1 && Fields(command)[1] == Name(r.sub) && r.parameters == Fields(command)[2..]
  {
    var split := Fields(command);
    if split[0] != "/stress" then NotStress(split[0])
    else
      var subcommand := if |split| > 1 then split[1] else "";
      var parameters := if |split| > 2 then split[2..] else [];
      if subcommand == "setup" then Invoke(Setup, parameters)
      else if subcommand == "teardown" then Invoke(Teardown, parameters)
      else if subcommand == "deleteall" then Invoke(DeleteAll, parameters)
      else if subcommand == "read" then Invoke(Read, parameters)
      else if subcommand == "save" then Invoke(Save, parameters)
      else if subcommand == "" then ShowIndex
      else Unmatched
  }

  /** The effect of the handler a subcommand selects. */
  function HandlerSpec(sub: Subcommand, parameters: seq<string>, uuids: nat -> string, f: Gateway.Faults, m: Gateway.Entries): C.Effect {
    match sub
    case Setup => C.SetupSpec(parameters, uuids, f, m)
    case Teardown => C.TeardownSpec(f, m)
    case DeleteAll => C.DeleteAllSpec(f, m)
    case Read => C.ReadSpec(parameters, f, m)
    case Save => C.SaveSpec(parameters, f, m)
  }

  /** The `res` line of the answer: a handler's result, "Index!", or nothing. */
  datatype Res = HandlerResult(status: C.Status) | IndexText | NoText

  datatype Response =
    | Unsupported(command: string)
    | Answer(command: string, res: Res, elapsed: Clock)

  /**
   * The handlers run on p's store. `uuids` stands for the successive
   * results of uuid.New() and `elapsed` for time.Since(start).
   */
  method ExecuteCommand(p: C.Plugin, command: string, uuids: nat -> string, elapsed: int) returns (resp: Response)
    requires |Fields(command)| > 0
    requires InRange(elapsed)
    modifies p.api
    ensures match RouteOf(command)
      case NotStress(c) =>
        resp == Unsupported(c) && p.api.entries == old(p.api.entries) && p.api.trace == old(p.api.trace)
      case Invoke(sub, parameters) =>
        var e := HandlerSpec(sub, parameters, uuids, p.api.faults, old(p.api.entries));
        resp == Answer(command, HandlerResult(e.status), FmtDuration(elapsed))
        && p.api.entries == e.entries && p.api.trace == old(p.api.trace) + e.calls
      case ShowIndex =>
        resp == Answer(command, IndexText, FmtDuration(elapsed))
        && p.api.entries == old(p.api.entries) && p.api.trace == old(p.api.trace)
      case Unmatched =>
        resp == Answer(command, NoText, FmtDuration(elapsed))
        && p.api.entries == old(p.api.entries) && p.api.trace == old(p.api.trace)
  {
    var route := RouteOf(command);
    if route.NotStress? {
      return Unsupported(route.command);
    }
    var res := NoText;
    match route {
      case Invoke(sub, parameters) =>
        var status;
        match sub {
          case Setup => status := p.HandleSetup(parameters, uuids);
          case Teardown => status := p.HandleTeardown(parameters);
          case DeleteAll => status := p.HandleDeleteAll(parameters);
          case Read => status := p.HandleRead(parameters);
          case Save => status := p.HandleSave(parameters);
        }
        res := HandlerResult(status);
      case ShowIndex =>
        res := IndexText;
      case Unmatched =>
    }
    var outTime := FmtDuration(elapsed);
    return Answer(command, res, outTime);
  }

  // ----- Properties of the routing -----

  /** Handlers run only when the first token is exactly "/stress"; otherwise the answer names that token. */
  lemma RouteGuard(command: string)
    requires |Fields(command)| > 0
    ensures RouteOf(command).NotStress? <==> Fields(command)[0] != "/stress"
    ensures RouteOf(command).NotStress? ==> RouteOf(command).command == Fields(command)[0]
  {
  }

  /** Each subcommand's handler gets exactly the tokens after the subcommand, in order. */
  lemma RouteTokens(sub: Subcommand, parameters: seq<string>)
    requires forall i :: 0 <= i < |parameters| ==> IsWord(parameters[i])
    ensures |Fields(Unwords(["/stress", Name(sub)] + parameters))| > 0
    ensures RouteOf(Unwords(["/stress", Name(sub)] + parameters)) == Invoke(sub, parameters)
  {
    var ws := ["/stress", Name(sub)] + parameters;
    assert forall i :: 0 <= i < |ws| ==> IsWord(ws[i]);
    FieldsOfUnwords(ws);
    assert ws[2..] == parameters;
  }

  /**
   * The `""` case of the switch is taken exactly when the line holds the
   * single token "/stress": strings.Fields never yields an empty token.
   */
  lemma RouteIndex(command: string)
    requires |Fields(command)| > 0
    ensures RouteOf(command) == ShowIndex <==> Fields(command) == ["/stress"]
  {
    var split := Fields(command);
    if |split| > 1 {
      assert IsWord(split[1]);
    }
  }

  /** A second token that names no handler runs nothing and leaves `res` empty. */
  lemma RouteUnmatched(command: string)
    requires |Fields(command)| > 0
    ensures RouteOf(command) == Unmatched <==>
      var split := Fields(command);
      split[0] == "/stress" && |split| > 1
      && forall sub: Subcommand :: split[1] != Name(sub)
  {
    var split := Fields(command);
    if |split| > 1 {
      assert IsWord(split[1]);
      var w := split[1];
      var known := w == "setup" || w == "teardown" || w == "deleteall" || w == "read" || w == "save";
      if known {
        var sub := if w == "setup" then Setup else if w == "teardown" then Teardown
          else if w == "deleteall" then Subcommand.DeleteAll else if w == "read" then Read else Save;
        assert w == Name(sub);
      } else {
        forall sub: Subcommand
          ensures w != Name(sub)
        {
        }
      }
    }
  }
}
