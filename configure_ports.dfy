/** The port set-up script: it checks one environment's section of the ports
    file and renders the two `.env.local` texts, one for the frontend and one
    for the backend. Reading and writing the files is not modelled; the
    parsed ports file is a map from environment name to its section. */
module ConfigurePorts {
  import opened Wrappers
  import opened JsStrings

  /** One side of an environment: `{ host, port }`. A key that is missing
      is `None`. */
  datatype Endpoint = Endpoint(host: Option<string>, port: Option<int>)

  /** An environment's section: `{ backend, frontend }`. */
  datatype EnvSection = EnvSection(backend: Option<Endpoint>, frontend: Option<Endpoint>)

  type PortsConfig = map<string, EnvSection>

  /** What the script's functions throw: a `TypeError` from reading a
      property of `undefined`, or an `Error` with its own message. */
  datatype ScriptError = TypeError(what: string) | Thrown(message: string)

  const MissingEnvironmentError := "Cannot destructure property 'backend' of 'config[environment]' as it is undefined."
  const MissingSectionError := "Cannot read properties of undefined (reading 'host')"

  /** `!port`: a missing port and port 0 are both falsy. */
  predicate FalsyPort(port: Option<int>) {
    port.None? || port.value == 0
  }

  function IncompleteMessage(environment: string): string {
    "Configura\U{E7}\U{E3}o incompleta para ambiente: " + environment
  }

  function UndefinedPortsMessage(environment: string): string {
    "Portas n\U{E3}o definidas para ambiente: " + environment
  }

  function ConflictMessage(port: int): string {
    "Conflito de portas: backend e frontend n\U{E3}o podem usar a mesma porta (" + IntToString(port) + ")"
  }

  /** validatePorts: the section must exist and name both sides, both ports
      must be truthy, and the two must differ, checked in that order. A
      passing check only logs. */
  function ValidatePorts(config: PortsConfig, environment: string): (r: Result<(), ScriptError>)
    ensures environment !in config ==> r == Failure(TypeError(MissingEnvironmentError))
    ensures environment in config && (config[environment].backend.None? || config[environment].frontend.None?) ==>
      r == Failure(Thrown(IncompleteMessage(environment)))
    ensures environment in config && config[environment].backend.Some? && config[environment].frontend.Some? ==>
      var b := config[environment].backend.value.port;
      var f := config[environment].frontend.value.port;
      (FalsyPort(b) || FalsyPort(f) ==> r == Failure(Thrown(UndefinedPortsMessage(environment))))
      && (!FalsyPort(b) && !FalsyPort(f) && b == f ==> r == Failure(Thrown(ConflictMessage(b.value))))
    ensures r.Success? <==>
      environment in config && config[environment].backend.Some? && config[environment].frontend.Some?
      && !FalsyPort(config[environment].backend.value.port) && !FalsyPort(config[environment].frontend.value.port)
      && config[environment].backend.value.port != config[environment].frontend.value.port
  {
    if environment !in config then Failure(TypeError(MissingEnvironmentError))
    else
      var section := config[environment];
      if section.backend.None? || section.frontend.None? then Failure(Thrown(IncompleteMessage(environment)))
      else
        var backend := section.backend.value;
        var frontend := section.frontend.value;
        if FalsyPort(backend.port) || FalsyPort(frontend.port) then Failure(Thrown(UndefinedPortsMessage(environment)))
        else if backend.port == frontend.port then Failure(Thrown(ConflictMessage(backend.port.value)))
        else Success(())
  }

  /** A check that passes leaves two distinct, non-zero ports. */
  lemma ValidatedPortsDiffer(config: PortsConfig, environment: string)
    requires ValidatePorts(config, environment).Success?
    ensures var s := config[environment];
      s.backend.Some? && s.frontend.Some? && s.backend.value.port.Some? && s.frontend.value.port.Some?
      && s.backend.value.port.value != 0 && s.frontend.value.port.value != 0
      && s.backend.value.port.value != s.frontend.value.port.value
  {
  }

  /** A template's `${value}`: a missing value prints as `undefined`. */
  function Shown(v: Option<string>): string {
    if v.Some? then v.value else "undefined"
  }

  function PortText(port: Option<int>): (r: string)
    ensures port.Some? ==> r == IntToString(port.value)
    ensures port.None? ==> r == "undefined"
  {
    if port.Some? then IntToString(port.value) else "undefined"
  }

  /** `http://${host}:${port}` */
  function Url(e: Endpoint): string {
    "http://" + Shown(e.host) + ":" + PortText(e.port)
  }

  /** One `KEY=value` line of an env file. */
  datatype Setting = Setting(key: string, value: string)

  function Line(s: Setting): string {
    s.key + "=" + s.value + "\n"
  }

  function Render(settings: seq<Setting>): string {
    if settings == [] then "" else Render(settings[..|settings| - 1]) + Line(settings[|settings| - 1])
  }

  /** The comment block both files start with. */
  function Header(environment: string): (r: string)
    ensures |r| > 0 && r[|r| - 1] == '\n'
  {
    "# Configura\U{E7}\U{E3}o autom\U{E1}tica de portas - " + ToUpperCase(environment)
    + "\n# Este arquivo \U{E9} gerado automaticamente por scripts/configure-ports.js"
    + "\n# N\U{E3}o edite manualmente - fa\U{E7}a altera\U{E7}\U{F5}es em config/ports.json\n\n"
  }

  function FrontendSettings(environment: string, backend: Endpoint, frontend: Endpoint): seq<Setting> {
    [ Setting("VITE_API_URL", Url(backend)),
      Setting("VITE_FRONTEND_URL", Url(frontend)),
      Setting("VITE_ENVIRONMENT", environment),
      Setting("VITE_BACKEND_PORT", PortText(backend.port)),
      Setting("VITE_FRONTEND_PORT", PortText(frontend.port)) ]
  }

  function BackendSettings(environment: string, backend: Endpoint, frontend: Endpoint): seq<Setting> {
    [ Setting("PORT", PortText(backend.port)),
      Setting("HOST", Shown(backend.host)),
      Setting("FRONTEND_URL", Url(frontend)),
      Setting("BACKEND_URL", Url(backend)),
      Setting("ENVIRONMENT", environment),
      Setting("CORS_ORIGIN", Url(frontend)) ]
  }

  datatype EnvTexts = EnvTexts(frontend: string, backend: string)

  /** createEnvContent: both texts are the header followed by their
      settings, one line each. A missing section fails the way reading
      `backend.host` of `undefined` does. */
  function CreateEnvContent(environment: string, config: PortsConfig): (r: Result<EnvTexts, ScriptError>)
    ensures environment !in config ==> r == Failure(TypeError(MissingEnvironmentError))
    ensures r.Success? <==> environment in config && config[environment].backend.Some? && config[environment].frontend.Some?
    ensures r.Success? ==>
      var b := config[environment].backend.value;
      var f := config[environment].frontend.value;
      r.value.frontend == Header(environment) + Render(FrontendSettings(environment, b, f))
      && r.value.backend == Header(environment) + Render(BackendSettings(environment, b, f))
  {
    if environment !in config then Failure(TypeError(MissingEnvironmentError))
    else
      var section := config[environment];
      if section.backend.None? || section.frontend.None? then Failure(TypeError(MissingSectionError))
      else
        var backend := section.backend.value;
        var frontend := section.frontend.value;
        Success(EnvTexts(
          Header(environment) + Render(FrontendSettings(environment, backend, frontend)),
          Header(environment) + Render(BackendSettings(environment, backend, frontend))))
  }

  lemma {:induction false} RenderPrefix(settings: seq<Setting>, i: nat)
    requires i <= |settings|
    ensures |Render(settings)| >= |Render(settings[..i])|
    ensures Render(settings)[..|Render(settings[..i])|] == Render(settings[..i])
    decreases |settings|
  {
    if i < |settings| {
      var init := settings[..|settings| - 1];
      assert init[..i] == settings[..i];
      RenderPrefix(init, i);
      assert Render(settings) == Render(init) + Line(settings[|settings| - 1]);
    } else {
      assert settings[..i] == settings;
    }
  }

  lemma {:induction false} RenderEndsWithBreak(settings: seq<Setting>)
    requires settings != []
    ensures |Render(settings)| > 0 && Render(settings)[|Render(settings)| - 1] == '\n'
  {
    var l := Line(settings[|settings| - 1]);
    assert l[|l| - 1] == '\n';
    assert Render(settings) == Render(settings[..|settings| - 1]) + l;
  }

  lemma PrefixOccurs(whole: string, a: string, l: string)
    requires |a| + |l| <= |whole| && whole[..|a| + |l|] == a + l
    ensures OccursAt(whole, l, |a|)
    ensures |a| > 0 ==> whole[|a| - 1] == a[|a| - 1]
  {
    assert whole[|a|..|a| + |l|] == (a + l)[|a|..];
    if |a| > 0 {
      assert whole[|a| - 1] == (a + l)[|a| - 1];
    }
  }

  /** A text that starts with `a + l`, where `a` is empty or ends a line,
      has `l` as a line right after `a`. */
  lemma LineAt(whole: string, a: string, l: string, r: string)
    requires r == a + l && |r| <= |whole| && whole[..|r|] == r
    requires a == [] || a[|a| - 1] == '\n'
    ensures OccursAt(whole, l, |a|)
    ensures |a| == 0 || whole[|a| - 1] == '\n'
  {
    PrefixOccurs(whole, a, l);
  }

  /** The rendering of the first i + 1 settings adds line i. */
  lemma RenderSnoc(settings: seq<Setting>, i: nat)
    requires i < |settings|
    ensures Render(settings[..i + 1]) == Render(settings[..i]) + Line(settings[i])
  {
    assert settings[..i + 1][..i] == settings[..i];
  }

  lemma ShiftedOccurs(h: string, t: string, l: string, x: nat)
    requires OccursAt(t, l, x)
    requires |h| > 0 && h[|h| - 1] == '\n'
    requires x == 0 || t[x - 1] == '\n'
    ensures OccursAt(h + t, l, |h| + x) && (h + t)[|h| + x - 1] == '\n'
  {
    assert (h + t)[|h|..] == t;
    assert (h + t)[|h| + x..|h| + x + |l|] == t[x..x + |l|];
    if x == 0 {
      assert (h + t)[|h| - 1] == h[|h| - 1];
    } else {
      assert (h + t)[|h| + x - 1] == t[x - 1];
    }
  }

  /** An env file's line for `key` carries `value`: it starts the text or
      follows a line break, and ends with one. */
  ghost predicate HasLine(text: string, key: string, value: string) {
    exists j :: 0 <= j && OccursAt(text, key + "=" + value + "\n", j) && (j == 0 || text[j - 1] == '\n')
  }

  /** A text that starts with `a + l` after a header ending in a line
      break, where `a` is empty or ends a line, has `l` as one of its lines. */
  lemma LineOfText(h: string, whole: string, a: string, l: string, r: string, key: string, value: string)
    requires l == key + "=" + value + "\n"
    requires r == a + l && |r| <= |whole| && whole[..|r|] == r
    requires a == [] || a[|a| - 1] == '\n'
    requires |h| > 0 && h[|h| - 1] == '\n'
    ensures HasLine(h + whole, key, value)
  {
    LineAt(whole, a, l, r);
    ShiftedOccurs(h, whole, l, |a|);
  }

  /** The header ends with a line break, so each setting of a file's
      settings is one of its lines. */
  lemma SettingInFile(environment: string, settings: seq<Setting>, i: nat)
    requires i < |settings|
    ensures HasLine(Header(environment) + Render(settings), settings[i].key, settings[i].value)
  {
    var before := settings[..i];
    var upTo := settings[..i + 1];
    RenderSnoc(settings, i);
    RenderPrefix(settings, i + 1);
    if i > 0 {
      RenderEndsWithBreak(before);
    } else {
      assert before == [];
    }
    LineOfText(Header(environment), Render(settings), Render(before), Line(settings[i]),
               Render(upTo), settings[i].key, settings[i].value);
  }

  /** The backend file: PORT and HOST are the backend's, FRONTEND_URL and
      CORS_ORIGIN are both the frontend's URL. */
  lemma BackendFileLines(environment: string, config: PortsConfig)
    requires CreateEnvContent(environment, config).Success?
    ensures var b := config[environment].backend.value;
      var f := config[environment].frontend.value;
      var text := CreateEnvContent(environment, config).value.backend;
      HasLine(text, "PORT", PortText(b.port)) && HasLine(text, "HOST", Shown(b.host))
      && HasLine(text, "FRONTEND_URL", "http://" + Shown(f.host) + ":" + PortText(f.port))
      && HasLine(text, "CORS_ORIGIN", "http://" + Shown(f.host) + ":" + PortText(f.port))
      && HasLine(text, "BACKEND_URL", "http://" + Shown(b.host) + ":" + PortText(b.port))
      && HasLine(text, "ENVIRONMENT", environment)
  {
    var b := config[environment].backend.value;
    var f := config[environment].frontend.value;
    var settings := BackendSettings(environment, b, f);
    SettingInFile(environment, settings, 0);
    SettingInFile(environment, settings, 1);
    SettingInFile(environment, settings, 2);
    SettingInFile(environment, settings, 3);
    SettingInFile(environment, settings, 4);
    SettingInFile(environment, settings, 5);
  }

  /** The frontend file: VITE_API_URL is the backend's URL and the two port
      settings are the two ports. */
  lemma FrontendFileLines(environment: string, config: PortsConfig)
    requires CreateEnvContent(environment, config).Success?
    ensures var b := config[environment].backend.value;
      var f := config[environment].frontend.value;
      var text := CreateEnvContent(environment, config).value.frontend;
      HasLine(text, "VITE_API_URL", "http://" + Shown(b.host) + ":" + PortText(b.port))
      && HasLine(text, "VITE_FRONTEND_URL", "http://" + Shown(f.host) + ":" + PortText(f.port))
      && HasLine(text, "VITE_ENVIRONMENT", environment)
      && HasLine(text, "VITE_BACKEND_PORT", PortText(b.port))
      && HasLine(text, "VITE_FRONTEND_PORT", PortText(f.port))
  {
    var b := config[environment].backend.value;
    var f := config[environment].frontend.value;
    var settings := FrontendSettings(environment, b, f);
    SettingInFile(environment, settings, 0);
    SettingInFile(environment, settings, 1);
    SettingInFile(environment, settings, 2);
    SettingInFile(environment, settings, 3);
    SettingInFile(environment, settings, 4);
  }

  /** The script renders only after the check passes, and then rendering
      cannot fail and both port lines print the two distinct numbers. */
  lemma ValidatedConfigRenders(config: PortsConfig, environment: string)
    requires ValidatePorts(config, environment).Success?
    ensures CreateEnvContent(environment, config).Success?
    ensures var s := config[environment];
      PortText(s.backend.value.port) == IntToString(s.backend.value.port.value)
      && PortText(s.frontend.value.port) == IntToString(s.frontend.value.port.value)
  {
  }
}
