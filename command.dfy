/** The `/api/command` handler of the server: how a power action, a target
    address, the host platform and a device's stored Windows credentials become
    the shell commands the server runs, and how a failed run is reported. */
module PowerCommand {
  import opened Wrappers
  import opened Text

  /** The address used when the request names none. */
  const Loopback: string := "127.0.0.1"
  /** The tag every shutdown dialog carries. */
  const Tag: string := "RemotePC-Controller"

  const InvalidActionMessage: string := "Ação inválida"
  const MissingCredentialsMessage: string :=
    "Credenciais (User/Pass) são obrigatórias para controle por Linux/Docker"

  /** A device row as the registry returns it; the credential columns may be NULL. */
  datatype DeviceRecord = DeviceRecord(id: int, winUser: Option<string>, winPass: Option<string>)

  datatype Credentials = Credentials(user: string, pass: string)

  /** What the handler decided to run: the power command, and the `net use`
      session command that is run before it, when there is one. */
  datatype Plan = Plan(targetIp: string, command: string, session: Option<string>)

  datatype ResolveError = InvalidAction | MissingCredentials

  datatype Resolution = Resolved(plan: Plan) | Rejected(error: ResolveError)

  /** A JavaScript string is truthy when it is present and not empty. */
  predicate Truthy(s: Option<string>)
  {
    s.Some? && s.value != ""
  }

  function TargetIp(ip: Option<string>): (t: string)
    ensures Truthy(ip) ==> t == ip.value
    ensures !Truthy(ip) ==> t == Loopback
  {
    if Truthy(ip) then ip.value else Loopback
  }

  predicate IsLocal(targetIp: string)
  {
    targetIp == Loopback || targetIp == "localhost"
  }

  predicate IsAction(action: string)
  {
    action == "shutdown" || action == "restart" || action == "abort"
  }

  /** `devices.find(d => d.id === id)`, with the found record described by
      its index: the first one carrying `id`. */
  function FindDevice(xs: seq<DeviceRecord>, id: int): (r: Option<DeviceRecord>)
    ensures r.None? <==> forall k :: 0 <= k < |xs| ==> xs[k].id != id
    ensures r.Some? ==> forall k ::
      (0 <= k < |xs| && xs[k].id == id && forall j :: 0 <= j < k ==> xs[j].id != id) ==>
      xs[k] == r.value
    ensures r.Some? ==>
      exists k :: 0 <= k < |xs| && xs[k] == r.value && xs[k].id == id &&
        forall j :: 0 <= j < k ==> xs[j].id != id
  {
    var found := FindFirst(xs, (d: DeviceRecord) => d.id == id);
    assert found.Some? ==> forall k ::
      (0 <= k < |xs| && xs[k].id == id && forall j :: 0 <= j < k ==> xs[j].id != id) ==>
      xs[k] == found.value by {
      if found.Some? {
        var f :| 0 <= f < |xs| && xs[f] == found.value && xs[f].id == id &&
          forall j :: 0 <= j < f ==> xs[j].id != id;
        forall k | 0 <= k < |xs| && xs[k].id == id && (forall j :: 0 <= j < k ==> xs[j].id != id)
          ensures xs[k] == found.value
        {
          assert !(k < f) && !(f < k);
        }
      }
    }
    found
  }

  /** The credentials stored for `deviceId`, when the request names a device
      (a non-zero id), the registry read succeeded (`devices` is present), the
      device is found, and both credential columns are non-empty. */
  function LookupCredentials(deviceId: Option<int>, devices: Option<seq<DeviceRecord>>): (c: Option<Credentials>)
    ensures c.Some? <==>
      deviceId.Some? && deviceId.value != 0 && devices.Some? &&
      exists k :: 0 <= k < |devices.value| && devices.value[k].id == deviceId.value &&
        (forall j :: 0 <= j < k ==> devices.value[j].id != deviceId.value) &&
        Truthy(devices.value[k].winUser) && Truthy(devices.value[k].winPass)
    ensures c.Some? ==> c.value.user != "" && c.value.pass != ""
    ensures c.Some? ==>
      exists k :: 0 <= k < |devices.value| && devices.value[k].id == deviceId.value &&
        (forall j :: 0 <= j < k ==> devices.value[j].id != deviceId.value) &&
        c.value == Credentials(devices.value[k].winUser.value, devices.value[k].winPass.value)
  {
    if deviceId.None? || deviceId.value == 0 || devices.None? then None
    else
      var found := FindDevice(devices.value, deviceId.value);
      if found.Some? && Truthy(found.value.winUser) && Truthy(found.value.winPass) then
        Some(Credentials(found.value.winUser.value, found.value.winPass.value))
      else None
  }

  /** The action flag, or None for an unknown action. */
  function Flag(action: string, isWin: bool): (f: Option<string>)
    ensures f.Some? <==> IsAction(action)
    ensures action == "shutdown" ==> f == Some(if isWin then "/s" else "-s")
    ensures action == "restart" ==> f == Some(if isWin then "/r" else "-r")
    ensures action == "abort" ==> f == Some(if isWin then "/a" else "")
  {
    if action == "shutdown" then Some(if isWin then "/s" else "-s")
    else if action == "restart" then Some(if isWin then "/r" else "-r")
    else if action == "abort" then Some(if isWin then "/a" else "")
    else None
  }

  function LocalCommand(flag: string): string
  {
    "shutdown " + flag + " /t 10 /c \"" + Tag + "\""
  }

  function WindowsRemoteCommand(action: string, targetIp: string, flag: string): string
  {
    if action == "abort" then "shutdown /m \\\\" + targetIp + " /a"
    else "shutdown /m \\\\" + targetIp + " " + flag + " /t 10 /c \"" + Tag + "\""
  }

  function NetRpcCommand(targetIp: string, creds: Credentials, flag: string): string
  {
    "net rpc shutdown -I " + targetIp + " -U \"" + creds.user + "%" + creds.pass + "\" "
      + flag + " -t 10 -C \"" + Tag + "\""
  }

  function SessionCommand(targetIp: string, creds: Credentials): string
  {
    "net use \\\\" + targetIp + " /user:" + creds.user + " " + creds.pass
  }

  /** The decision part of the handler: validate the action, pick the command
      for the local / Windows-remote / `net rpc` path, and decide whether a
      `net use` session is set up first. */
  function Resolve(action: string, ip: Option<string>, isWin: bool, creds: Option<Credentials>): (r: Resolution)
    ensures r == Rejected(InvalidAction) <==> !IsAction(action)
    ensures r == Rejected(MissingCredentials) <==>
      IsAction(action) && !IsLocal(TargetIp(ip)) && !isWin && creds.None?
    ensures r.Resolved? ==> r.plan.targetIp == TargetIp(ip)
    ensures r.Resolved? ==>
      (r.plan.session.Some? <==> isWin && !IsLocal(TargetIp(ip)) && creds.Some?)
    ensures r.Resolved? && r.plan.session.Some? ==>
      r.plan.session.value == SessionCommand(TargetIp(ip), creds.value)
    ensures r.Resolved? ==>
      r.plan.command ==
        if IsLocal(TargetIp(ip)) then LocalCommand(Flag(action, isWin).value)
        else if isWin then WindowsRemoteCommand(action, TargetIp(ip), Flag(action, isWin).value)
        else NetRpcCommand(TargetIp(ip), creds.value, Flag(action, isWin).value)
  {
    var targetIp := TargetIp(ip);
    var isLocal := IsLocal(targetIp);
    var flag := Flag(action, isWin);
    if flag.None? then Rejected(InvalidAction)
    else if isLocal then Resolved(Plan(targetIp, LocalCommand(flag.value), None))
    else if isWin then
      var session := if creds.Some? then Some(SessionCommand(targetIp, creds.value)) else None;
      Resolved(Plan(targetIp, WindowsRemoteCommand(action, targetIp, flag.value), session))
    else if creds.None? then Rejected(MissingCredentials)
    else Resolved(Plan(targetIp, NetRpcCommand(targetIp, creds.value, flag.value), None))
  }

  /** An unknown action is refused whatever the target, platform or credentials. */
  lemma InvalidActionWins(action: string, ip: Option<string>, isWin: bool, creds: Option<Credentials>)
    requires !IsAction(action)
    ensures Resolve(action, ip, isWin, creds) == Rejected(InvalidAction)
  {
  }

  /** A local target never needs credentials and never sets up a session. */
  lemma LocalNeedsNoCredentials(action: string, ip: Option<string>, isWin: bool, creds: Option<Credentials>)
    requires IsAction(action) && IsLocal(TargetIp(ip))
    ensures Resolve(action, ip, isWin, creds).Resolved?
    ensures Resolve(action, ip, isWin, creds).plan.session.None?
    ensures Resolve(action, ip, isWin, creds).plan.command == LocalCommand(Flag(action, isWin).value)
  {
  }

  /** The Windows remote abort is exactly `shutdown /m \\<ip> /a`. */
  lemma WindowsRemoteAbortIsBare(ip: Option<string>, creds: Option<Credentials>)
    requires !IsLocal(TargetIp(ip))
    ensures Resolve("abort", ip, true, creds).Resolved?
    ensures Resolve("abort", ip, true, creds).plan.command == "shutdown /m \\\\" + TargetIp(ip) + " /a"
  {
  }

  /** The local command carries the 10-second delay and the tag. */
  lemma LocalCommandShape(flag: string)
    ensures Contains(LocalCommand(flag), " /t 10 ") && Contains(LocalCommand(flag), "\"" + Tag + "\"")
  {
    var quoted := "\"" + Tag + "\"";
    var c := LocalCommand(flag);
    assert c == ("shutdown " + flag) + " /t 10 " + ("/c " + quoted);
    ContainsInfix("shutdown " + flag, " /t 10 ", "/c " + quoted);
    assert c == ("shutdown " + flag + " /t 10 /c ") + quoted + "";
    ContainsInfix("shutdown " + flag + " /t 10 /c ", quoted, "");
  }

  /** A Windows remote command names the target, and unless it is the abort it
      carries the 10-second delay and the tag. */
  lemma WindowsRemoteCommandShape(action: string, targetIp: string, flag: string)
    ensures Contains(WindowsRemoteCommand(action, targetIp, flag), targetIp)
    ensures action != "abort" ==>
      Contains(WindowsRemoteCommand(action, targetIp, flag), " /t 10 ") &&
      Contains(WindowsRemoteCommand(action, targetIp, flag), "\"" + Tag + "\"")
  {
    var pre := "shutdown /m \\\\";
    var c := WindowsRemoteCommand(action, targetIp, flag);
    if action == "abort" {
      assert c == pre + targetIp + " /a";
      ContainsInfix(pre, targetIp, " /a");
    } else {
      var quoted := "\"" + Tag + "\"";
      assert c == pre + targetIp + (" " + flag + " /t 10 /c " + quoted);
      ContainsInfix(pre, targetIp, " " + flag + " /t 10 /c " + quoted);
      assert c == (pre + targetIp + " " + flag) + " /t 10 " + ("/c " + quoted);
      ContainsInfix(pre + targetIp + " " + flag, " /t 10 ", "/c " + quoted);
      assert c == (pre + targetIp + " " + flag + " /t 10 /c ") + quoted + "";
      ContainsInfix(pre + targetIp + " " + flag + " /t 10 /c ", quoted, "");
    }
  }

  /** A `net rpc` command names the target and carries the 10-second delay and the tag. */
  lemma NetRpcCommandShape(targetIp: string, creds: Credentials, flag: string)
    ensures Contains(NetRpcCommand(targetIp, creds, flag), targetIp)
    ensures Contains(NetRpcCommand(targetIp, creds, flag), " -t 10 ")
    ensures Contains(NetRpcCommand(targetIp, creds, flag), "\"" + Tag + "\"")
  {
    var quoted := "\"" + Tag + "\"";
    var pre := "net rpc shutdown -I ";
    var mid := " -U \"" + creds.user + "%" + creds.pass + "\" " + flag;
    var c := NetRpcCommand(targetIp, creds, flag);
    assert c == pre + targetIp + (mid + " -t 10 -C " + quoted);
    ContainsInfix(pre, targetIp, mid + " -t 10 -C " + quoted);
    assert c == (pre + targetIp + mid) + " -t 10 " + ("-C " + quoted);
    ContainsInfix(pre + targetIp + mid, " -t 10 ", "-C " + quoted);
    assert c == (pre + targetIp + mid + " -t 10 -C ") + quoted + "";
    ContainsInfix(pre + targetIp + mid + " -t 10 -C ", quoted, "");
  }

  /** Every command other than the Windows remote abort carries the 10-second
      delay and the tag, and every remote command names the target address. */
  lemma CommandShape(action: string, ip: Option<string>, isWin: bool, creds: Option<Credentials>)
    requires Resolve(action, ip, isWin, creds).Resolved?
    ensures var p := Resolve(action, ip, isWin, creds).plan;
      (!IsLocal(p.targetIp) ==> Contains(p.command, p.targetIp)) &&
      (!(isWin && action == "abort" && !IsLocal(p.targetIp)) ==>
         Contains(p.command, "\"" + Tag + "\"") &&
         (Contains(p.command, " /t 10 ") || Contains(p.command, " -t 10 ")))
  {
    var t := TargetIp(ip);
    var flag := Flag(action, isWin).value;
    if IsLocal(t) {
      LocalCommandShape(flag);
    } else if isWin {
      WindowsRemoteCommandShape(action, t, flag);
    } else {
      NetRpcCommandShape(t, creds.value, flag);
    }
  }

  // ---------------------------------------------------------------------------
  // Running the plan and reporting its outcome

  /** What `exec` reports for one command: success, or failure with the
      process's stderr and the error object's message. */
  datatype ExecOutcome = Succeeded(stdout: string) | Failed(stderr: string, errMessage: string)

  /** One row of the classifier: any of `patterns` in the lower-cased error
      text selects `message`. */
  datatype Rule = Rule(patterns: seq<string>, message: string)

  const DefaultFailure: string := "O comando falhou."
  const AccessDenied: string := "Acesso Negado. Verifique credenciais e permissões no PC de destino."
  const Unreachable: string := "PC não encontrado na rede ou offline."
  const NetToolMissing: string := "Ferramenta \"net\" (Samba) não instalada no servidor."

  const DeniedPatterns: seq<string> := ["acesso negado", "access is denied"]
  const UnreachablePatterns: seq<string> := ["caminho da rede", "network path", "unreachable"]
  const NotFoundPatterns: seq<string> := ["not found", "net: command not found"]

  /** The classifier's table, in priority order. */
  const Rules: seq<Rule> := [
    Rule(DeniedPatterns, AccessDenied),
    Rule(UnreachablePatterns, Unreachable),
    Rule(NotFoundPatterns, NetToolMissing)
  ]

  predicate ContainsAny(text: string, patterns: seq<string>)
  {
    exists k :: 0 <= k < |patterns| && Contains(text, patterns[k])
  }

  /** The message of the first rule that matches `text`, or the default. */
  function FirstMatch(rules: seq<Rule>, text: string): (m: string)
    ensures forall k :: (0 <= k < |rules| && ContainsAny(text, rules[k].patterns) &&
                         (forall j :: 0 <= j < k ==> !ContainsAny(text, rules[j].patterns))) ==>
                        m == rules[k].message
    ensures (forall k :: 0 <= k < |rules| ==> !ContainsAny(text, rules[k].patterns)) ==> m == DefaultFailure
    ensures m == DefaultFailure || exists k :: 0 <= k < |rules| && m == rules[k].message
  {
    if rules == [] then DefaultFailure
    else if ContainsAny(text, rules[0].patterns) then rules[0].message
    else
      var m := FirstMatch(rules[1..], text);
      assert forall k :: 1 <= k < |rules| ==> rules[k] == rules[1..][k - 1];
      m
  }

  /** The message reported for a failed command: the table applied to the
      lower-cased concatenation of stderr and the error message. */
  function Classify(stderr: string, errMessage: string): (m: string)
    ensures m == AccessDenied || m == Unreachable || m == NetToolMissing || m == DefaultFailure
  {
    FirstMatch(Rules, Lower(stderr + errMessage))
  }

  /** The first matching row wins, in the order access denied, unreachable,
      tool missing, default. */
  lemma ClassifyPriority(stderr: string, errMessage: string)
    ensures var text := Lower(stderr + errMessage);
      (ContainsAny(text, DeniedPatterns) ==> Classify(stderr, errMessage) == AccessDenied) &&
      (!ContainsAny(text, DeniedPatterns) && ContainsAny(text, UnreachablePatterns) ==>
         Classify(stderr, errMessage) == Unreachable) &&
      ((!ContainsAny(text, DeniedPatterns) && !ContainsAny(text, UnreachablePatterns) &&
        ContainsAny(text, NotFoundPatterns)) ==> Classify(stderr, errMessage) == NetToolMissing) &&
      ((!ContainsAny(text, DeniedPatterns) && !ContainsAny(text, UnreachablePatterns) &&
        !ContainsAny(text, NotFoundPatterns)) ==> Classify(stderr, errMessage) == DefaultFailure)
  {
    var text := Lower(stderr + errMessage);
    assert Rules[0].patterns == DeniedPatterns;
    assert Rules[1].patterns == UnreachablePatterns;
    assert Rules[2].patterns == NotFoundPatterns;
  }

  /** The messages are pairwise distinct, so the message names the row. */
  lemma ClassifyIff(stderr: string, errMessage: string)
    ensures var text := Lower(stderr + errMessage);
      (Classify(stderr, errMessage) == AccessDenied <==> ContainsAny(text, DeniedPatterns)) &&
      (Classify(stderr, errMessage) == Unreachable <==>
         !ContainsAny(text, DeniedPatterns) && ContainsAny(text, UnreachablePatterns)) &&
      (Classify(stderr, errMessage) == NetToolMissing <==>
         !ContainsAny(text, DeniedPatterns) && !ContainsAny(text, UnreachablePatterns) &&
         ContainsAny(text, NotFoundPatterns))
  {
    ClassifyPriority(stderr, errMessage);
    assert AccessDenied != Unreachable && AccessDenied != NetToolMissing && AccessDenied != DefaultFailure;
    assert Unreachable != NetToolMissing && Unreachable != DefaultFailure && NetToolMissing != DefaultFailure;
  }

  /** The second "not found" pattern is subsumed by the first: the row matches
      exactly when the text contains "not found". */
  lemma NotFoundRowIsOnePattern(text: string)
    ensures ContainsAny(text, NotFoundPatterns) <==> Contains(text, "not found")
  {
    if Contains(text, "net: command not found") {
      ContainsIffOccurs(text, "net: command not found");
      var i :| OccursAt("net: command not found", text, i);
      assert text[i + 13..i + 22] == text[i..i + 22][13..22] == "not found";
      assert OccursAt("not found", text, i + 13);
      ContainsIffOccurs(text, "not found");
    }
    assert NotFoundPatterns[0] == "not found";
  }

  /** The HTTP reply of the handler. */
  datatype Response = Response(status: int, message: string, details: Option<string>)

  /** What the handler does with a request: the commands it hands to `exec`,
      in order, and the reply it sends. `outcome` is what the power command's
      `exec` reports; the outcome of the `net use` step is not an input,
      because the handler runs the power command whatever it was. */
  datatype Exchange = Exchange(executed: seq<string>, response: Response)

  function Handle(action: string, ip: Option<string>, isWin: bool, creds: Option<Credentials>,
                  outcome: ExecOutcome): (x: Exchange)
    ensures Resolve(action, ip, isWin, creds).Rejected? ==>
      x.executed == [] && x.response.status == 400 &&
      x.response.message == (if IsAction(action) then MissingCredentialsMessage else InvalidActionMessage) &&
      x.response.details.None?
    ensures Resolve(action, ip, isWin, creds).Resolved? ==>
      |x.executed| >= 1 &&
      x.executed[|x.executed| - 1] == Resolve(action, ip, isWin, creds).plan.command &&
      (|x.executed| == 2 <==> isWin && !IsLocal(TargetIp(ip)) && creds.Some?) &&
      |x.executed| <= 2
    ensures Resolve(action, ip, isWin, creds).Resolved? && |x.executed| == 2 ==>
      x.executed[0] == SessionCommand(TargetIp(ip), creds.value)
    ensures Resolve(action, ip, isWin, creds).Resolved? && outcome.Succeeded? ==>
      x.response == Response(200, "Comando enviado com sucesso para " + TargetIp(ip), None)
    ensures Resolve(action, ip, isWin, creds).Resolved? && outcome.Failed? ==>
      x.response.status == 500 &&
      x.response.message == Classify(outcome.stderr, outcome.errMessage) &&
      x.response.details == Some(if outcome.stderr != "" then outcome.stderr else outcome.errMessage)
  {
    match Resolve(action, ip, isWin, creds)
    case Rejected(e) =>
      var msg := if e == InvalidAction then InvalidActionMessage else MissingCredentialsMessage;
      Exchange([], Response(400, msg, None))
    case Resolved(plan) =>
      var executed := if plan.session.Some? then [plan.session.value, plan.command] else [plan.command];
      var response := match outcome
        case Succeeded(_) => Response(200, "Comando enviado com sucesso para " + plan.targetIp, None)
        case Failed(stderr, errMessage) =>
          Response(500, Classify(stderr, errMessage),
                   Some(if stderr != "" then stderr else errMessage));
      Exchange(executed, response)
  }
}
