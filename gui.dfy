/** The session state of the ADB connection window (`ADBDebugGUI`), with the
    widgets taken away: the settings mapping, the chosen language, the status
    line and the two entry fields, and the actions that change them. */
module Gui {
  import opened Wrappers
  import opened PyStr
  import opened Endpoint
  import opened Bridge

  /** The keys of the settings file. */
  const AdbPathKey: string := "adb_path"
  const LanguageKey: string := "language"
  const LastIpPortKey: string := "last_ip_port"

  /** The languages the string table has entries for. */
  const Languages: set<string> := {"zh_CN", "en"}
  const FallbackLanguage: string := "en"

  /** What the status line shows, by string-table key. */
  datatype Status = Ready | ConnectedTo(endpoint: string) | Disconnected

  /** The messages of the dialogs, by string-table key. */
  datatype Message =
    | InvalidAdb | AdbPathSaved | SetAdbFirst | EnterIpPort | InvalidIpPort
    | ConnectFailed(endpoint: string) | DisconnectFailed

  /** What an action shows besides the status line: nothing, an error or an
      information dialog, or an exception that escapes the handler (Tk reports
      it and the window goes on). */
  datatype Notice = Quiet | ShowError(msg: Message) | ShowInfo(msg: Message) | Uncaught

  /** `settings.get('adb_path')` when it is set and not empty: the test
      `if not adb_path` treats an empty path as no path. */
  function AdbPath(settings: map<string, string>): (path: Option<string>)
    ensures path.Some? <==> AdbPathKey in settings && settings[AdbPathKey] != ""
    ensures path.Some? ==> path.value == settings[AdbPathKey]
  {
    if AdbPathKey in settings && settings[AdbPathKey] != "" then Some(settings[AdbPathKey]) else None
  }

  /** The language chosen at start-up: the stored one if there is one,
      otherwise the system locale, and "en" unless that choice is a language
      of the string table. */
  function ResolveLanguage(settings: map<string, string>, systemLocale: Option<string>): (lang: string)
    ensures lang in Languages
    ensures LanguageKey in settings && settings[LanguageKey] in Languages ==> lang == settings[LanguageKey]
    ensures LanguageKey !in settings && systemLocale.Some? && systemLocale.value in Languages ==> lang == systemLocale.value
    ensures lang != FallbackLanguage ==>
      if LanguageKey in settings then lang == settings[LanguageKey] else systemLocale == Some(lang)
  {
    var wanted := if LanguageKey in settings then Some(settings[LanguageKey]) else systemLocale;
    if wanted.Some? && wanted.value in Languages then wanted.value else FallbackLanguage
  }

  /** `settings.get('last_ip_port', '')`. */
  function StoredEndpoint(settings: map<string, string>): string {
    if LastIpPortKey in settings then settings[LastIpPortKey] else ""
  }

  /** The start-up contents of the IP and port entries: the first two
      colon-separated fields of the stored endpoint, or two empty fields when
      it holds no colon. */
  function LastEndpoint(settings: map<string, string>): (fields: (string, string))
    ensures var s := StoredEndpoint(settings);
      if ':' in s then
        ':' !in fields.0 && ':' !in fields.1 &&
        var n := |fields.0| + 1 + |fields.1|;
        n <= |s| && s[..n] == fields.0 + ":" + fields.1 && (n == |s| || s[n] == ':')
      else fields == ("", "")
  {
    var s := StoredEndpoint(settings);
    if ':' in s then
      var parts := Split(s, ':');
      SplitCount(s, ':');
      assert s == parts[0] + [':'] + Join(parts[1..], ':');
      assert |parts[1..]| > 1 ==> Join(parts[1..], ':') == parts[1] + [':'] + Join(parts[2..], ':') by {
        assert parts[1..][1..] == parts[2..];
      }
      (parts[0], parts[1])
    else ("", "")
  }

  /** The endpoint `start_debug` stores comes back, at the next start, as the
      same IP and port: both pass validation, so neither holds a colon. */
  lemma RestoredEndpoint(settings: map<string, string>, ip: string, port: string)
    requires ValidateIp(ip) && ValidatePort(port)
    ensures LastEndpoint(settings[LastIpPortKey := ip + ":" + port]) == (ip, port)
  {
    ValidIpHasNoColon(ip);
    ValidPortHasNoColon(port);
    var s := ip + ":" + port;
    assert s == Join([ip, port], ':');
    SplitJoin([ip, port], ':');
    assert s[|ip|] == ':';
  }

  /** A stored endpoint without a colon leaves both entries empty. */
  lemma NoColonNoEndpoint(settings: map<string, string>)
    requires ':' !in StoredEndpoint(settings)
    ensures LastEndpoint(settings) == ("", "")
  {
  }

  /** The checks `start_debug` makes before it runs the bridge, in their order. */
  datatype Precheck = Blocked(msg: Message) | Proceed(adb: string, endpoint: string)

  function PrecheckConnect(settings: map<string, string>, ipText: string, portText: string): (p: Precheck)
    ensures p.Proceed? <==> AdbPath(settings).Some? && ValidateInput(ipText, portText)
    ensures p.Proceed? ==> Some(p.adb) == AdbPath(settings) && p.endpoint == Strip(ipText) + ":" + Strip(portText)
    ensures p == Blocked(SetAdbFirst) <==> AdbPath(settings).None?
    ensures p == Blocked(EnterIpPort) <==> AdbPath(settings).Some? && (Strip(ipText) == "" || Strip(portText) == "")
    ensures p == Blocked(InvalidIpPort) <==>
      AdbPath(settings).Some? && Strip(ipText) != "" && Strip(portText) != "" && !ValidateInput(ipText, portText)
  {
    var ip, port := Strip(ipText), Strip(portText);
    match AdbPath(settings)
    case None => Blocked(SetAdbFirst)
    case Some(adb) =>
      if ip == "" || port == "" then Blocked(EnterIpPort)
      else if !ValidateInput(ipText, portText) then Blocked(InvalidIpPort)
      else Proceed(adb, ip + ":" + port)
  }

  /** The window's state. `saved` is the content of the settings file as this
      session last read or wrote it (`None` while no file could be read and
      none has been written), and `calls` lists the command lines of the
      bridge runs so far. */
  class App {
    var settings: map<string, string>
    var lang: string
    var status: Status
    var ipEntry: string
    var portEntry: string
    ghost var saved: Option<map<string, string>>
    ghost var calls: seq<seq<string>>

    /** The language is one the string table has, and the settings in memory
        are always those of the file, or still empty when there is none. */
    ghost predicate Valid()
      reads this
    {
      lang in Languages && (saved == Some(settings) || (saved == None && settings == map[]))
    }

    /** `__init__`: `loaded` is what `load_settings` read (`None` when the file
        is missing or cannot be read or parsed) and `systemLocale` the
        language of `locale.getdefaultlocale()`. */
    constructor (loaded: Option<map<string, string>>, systemLocale: Option<string>)
      ensures Valid()
      ensures settings == (if loaded.Some? then loaded.value else map[])
      ensures lang == ResolveLanguage(settings, systemLocale)
      ensures (ipEntry, portEntry) == LastEndpoint(settings)
      ensures status == Ready && saved == loaded && calls == []
    {
      var initial := if loaded.Some? then loaded.value else map[];
      settings := initial;
      lang := ResolveLanguage(initial, systemLocale);
      var fields := LastEndpoint(initial);
      ipEntry, portEntry := fields.0, fields.1;
      status := Ready;
      saved := loaded;
      calls := [];
    }

    /** The user types into the IP and port entries. */
    method EditEntries(ipText: string, portText: string)
      modifies this
      ensures ipEntry == ipText && portEntry == portText
      ensures settings == old(settings) && lang == old(lang) && status == old(status)
      ensures saved == old(saved) && calls == old(calls)
    {
      ipEntry, portEntry := ipText, portText;
    }

    /** `change_language`, offered only for the two languages of the menu:
        the choice is stored on its own key and saved, and the status line
        goes back to "ready". */
    method ChangeLanguage(l: string)
      requires Valid() && l in Languages
      modifies this
      ensures Valid()
      ensures lang == l && status == Ready
      ensures settings == old(settings)[LanguageKey := l] && saved == Some(settings)
      ensures settings - {LanguageKey} == old(settings) - {LanguageKey}
      ensures ipEntry == old(ipEntry) && portEntry == old(portEntry) && calls == old(calls)
    {
      lang := l;
      settings := settings[LanguageKey := l];
      saved := Some(settings);
      status := Ready;
    }

    /** `set_adb_path`: `chosen` is the file picked in the dialog, "" when it
        is cancelled, and `probe` the outcome of `chosen version`. The path is
        stored and saved only when the probe passes; no other key changes. */
    method SetAdbPath(chosen: string, probe: Run) returns (notice: Notice)
      requires Valid()
      modifies this
      ensures Valid()
      ensures lang == old(lang) && status == old(status)
      ensures ipEntry == old(ipEntry) && portEntry == old(portEntry)
      ensures settings - {AdbPathKey} == old(settings) - {AdbPathKey}
      ensures chosen == "" ==>
        notice == Quiet && settings == old(settings) && saved == old(saved) && calls == old(calls)
      ensures chosen != "" ==> calls == old(calls) + [[chosen, "version"]]
      ensures chosen != "" ==>
        match ValidateAdb(probe)
        case Returned(true) =>
          notice == ShowInfo(AdbPathSaved) && settings == old(settings)[AdbPathKey := chosen] && saved == Some(settings)
        case Returned(false) =>
          notice == ShowError(InvalidAdb) && settings == old(settings) && saved == old(saved)
        case Raised =>
          notice == Uncaught && settings == old(settings) && saved == old(saved)
    {
      if chosen == "" {
        return Quiet;
      }
      calls := calls + [[chosen, "version"]];
      var verdict := ValidateAdb(probe);
      match verdict {
        case Raised =>
          notice := Uncaught;
        case Returned(ok) =>
          if !ok {
            notice := ShowError(InvalidAdb);
          } else {
            settings := settings[AdbPathKey := chosen];
            saved := Some(settings);
            notice := ShowInfo(AdbPathSaved);
          }
      }
    }

    /** `start_debug`: the bridge runs only once the three checks pass, and
        `run` is then the outcome of `adb connect ip:port`. The endpoint is
        stored and saved exactly when the connection is reported made;
        otherwise the settings and the file stay as they were. */
    method StartDebug(run: Run) returns (notice: Notice)
      requires Valid()
      modifies this
      ensures Valid()
      ensures lang == old(lang) && ipEntry == old(ipEntry) && portEntry == old(portEntry)
      ensures settings == old(settings) || (PrecheckConnect(old(settings), ipEntry, portEntry).Proceed? && ClassifyConnect(run) == Returned(true))
      ensures match PrecheckConnect(old(settings), ipEntry, portEntry)
        case Blocked(msg) =>
          notice == ShowError(msg) && calls == old(calls) &&
          settings == old(settings) && saved == old(saved) && status == old(status)
        case Proceed(adb, endpoint) =>
          calls == old(calls) + [[adb, "connect", endpoint]] &&
          match ClassifyConnect(run)
          case Returned(true) =>
            notice == Quiet && status == ConnectedTo(endpoint) &&
            settings == old(settings)[LastIpPortKey := endpoint] && saved == Some(settings)
          case Returned(false) =>
            notice == ShowError(ConnectFailed(endpoint)) &&
            settings == old(settings) && saved == old(saved) && status == old(status)
          case Raised =>
            notice == Uncaught &&
            settings == old(settings) && saved == old(saved) && status == old(status)
    {
      var ip := Strip(ipEntry);
      var port := Strip(portEntry);
      var adb := AdbPath(settings);
      if adb.None? {
        return ShowError(SetAdbFirst);
      }
      if ip == "" || port == "" {
        return ShowError(EnterIpPort);
      }
      if !ValidateInput(ipEntry, portEntry) {
        return ShowError(InvalidIpPort);
      }
      var endpoint := ip + ":" + port;
      calls := calls + [[adb.value, "connect", endpoint]];
      var outcome := ClassifyConnect(run);
      match outcome {
        case Raised =>
          notice := Uncaught;
        case Returned(ok) =>
          if ok {
            status := ConnectedTo(endpoint);
            settings := settings[LastIpPortKey := endpoint];
            saved := Some(settings);
            notice := Quiet;
          } else {
            notice := ShowError(ConnectFailed(endpoint));
          }
      }
    }

    /** `stop_debug`: never touches the settings; `run` is the outcome of
        `adb disconnect` when a bridge path is set. */
    method StopDebug(run: Run) returns (notice: Notice)
      requires Valid()
      modifies this
      ensures Valid()
      ensures settings == old(settings) && saved == old(saved) && lang == old(lang)
      ensures ipEntry == old(ipEntry) && portEntry == old(portEntry)
      ensures match AdbPath(settings)
        case None =>
          notice == ShowError(SetAdbFirst) && calls == old(calls) && status == old(status)
        case Some(adb) =>
          calls == old(calls) + [[adb, "disconnect"]] &&
          match ClassifyDisconnect(run)
          case Returned(true) => notice == Quiet && status == Disconnected
          case Returned(false) => notice == ShowError(DisconnectFailed) && status == old(status)
          case Raised => notice == Uncaught && status == old(status)
    {
      var adb := AdbPath(settings);
      if adb.None? {
        return ShowError(SetAdbFirst);
      }
      calls := calls + [[adb.value, "disconnect"]];
      var outcome := ClassifyDisconnect(run);
      match outcome {
        case Raised =>
          notice := Uncaught;
        case Returned(ok) =>
          if ok {
            status := Disconnected;
            notice := Quiet;
          } else {
            notice := ShowError(DisconnectFailed);
          }
      }
    }
  }

  /** The entries of the session below pass the checks of `start_debug`. */
  lemma PrivateEndpointProceeds(settings: map<string, string>)
    requires AdbPath(settings) == Some("adb")
    ensures PrecheckConnect(settings, "192.168.1.1", "5555") == Proceed("adb", "192.168.1.1:5555")
  {
    assert "192.168.1.1" + ":" + "5555" == "192.168.1.1:5555";
    StripTight("192.168.1.1");
    StripTight("5555");
    AcceptsPrivateAddress();
    AcceptsPorts();
  }

  /** That endpoint, once stored, fills the entries of the next session. */
  lemma PrivateEndpointRestored(settings: map<string, string>)
    ensures LastEndpoint(settings[LastIpPortKey := "192.168.1.1:5555"]) == ("192.168.1.1", "5555")
  {
    assert "192.168.1.1" + ":" + "5555" == "192.168.1.1:5555";
    AcceptsPrivateAddress();
    AcceptsPorts();
    RestoredEndpoint(settings, "192.168.1.1", "5555");
  }

  /** A session that sets up nothing but the bridge path, connects to a
      device and is closed: the next session opens with the same endpoint in
      its entries. */
  method ConnectThenReopen() returns (ip: string, port: string, status: Status)
    ensures ip == "192.168.1.1" && port == "5555"
    ensures status == ConnectedTo("192.168.1.1:5555")
  {
    var start := map[AdbPathKey := "adb"];
    var app := new App(Some(start), None);
    app.EditEntries("192.168.1.1", "5555");
    PrivateEndpointProceeds(start);
    RecognisesConnectedReply();
    var notice := app.StartDebug(Exited(0, "connected to 192.168.1.1:5555"));
    status := app.status;
    PrivateEndpointRestored(start);
    var next := new App(Some(app.settings), None);
    ip, port := next.ipEntry, next.portEntry;
  }
}
