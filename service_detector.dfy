/**
  `ServiceDetector`: probing a remote host for MySQL, Redis, PostgreSQL and Docker by
  running shell commands over an SSH session.

  The remote host is a function from a command line to what the exec channel for that
  command delivers, so a command always answers the same way.
*/
module ServiceDetector {
  import opened Base
  import opened Strings
  import opened SshSession
  import opened VersionParsing

  /** Serialised in lower case: "running", "stopped", "installed". */
  datatype ServiceStatus = Running | Stopped | Installed

  datatype DetectedService = DetectedService(name: string, version: string, status: ServiceStatus, port: uint16)

  /** The four services, in the order `detect_all` reports them. */
  datatype Service = Mysql | Redis | Postgresql | Docker

  // ---------------------------------------------------------------------------
  // JSON form (serde with `rename_all = "lowercase"`)
  // ---------------------------------------------------------------------------

  function VariantName(s: ServiceStatus): string {
    match s
    case Running => "Running"
    case Stopped => "Stopped"
    case Installed => "Installed"
  }

  /** The JSON string for a status: the variant's name in lower case, quoted. */
  function StatusJson(s: ServiceStatus): (j: string)
    ensures j == "\"" + Lower(VariantName(s)) + "\""
  {
    match s
    case Running => "\"running\""
    case Stopped => "\"stopped\""
    case Installed => "\"installed\""
  }

  lemma StatusJsonInjective(a: ServiceStatus, b: ServiceStatus)
    requires StatusJson(a) == StatusJson(b)
    ensures a == b
  {
    assert StatusJson(a)[1] == StatusJson(b)[1];
  }

  function HexDigit(d: nat): (c: char)
    requires d < 16
  {
    if d < 10 then ('0' as int + d) as char else ('a' as int + d - 10) as char
  }

  /** serde_json's escaping of one character inside a string. */
  function EscapeChar(c: char): (r: string)
    ensures c != '"' && c != '\\' && c as int >= 0x20 ==> r == [c]
    ensures |r| >= 1
  {
    if c == '"' then "\\\""
    else if c == '\\' then "\\\\"
    else if c == '\n' then "\\n"
    else if c == '\r' then "\\r"
    else if c == '\t' then "\\t"
    else if c == '\U{8}' then "\\b"
    else if c == '\U{C}' then "\\f"
    else if c as int < 0x20 then "\\u00" + [HexDigit(c as int / 16), HexDigit(c as int % 16)]
    else [c]
  }

  function Escape(s: string): (r: string)
    ensures |r| >= |s|
  {
    if s == [] then [] else EscapeChar(s[0]) + Escape(s[1..])
  }

  /** Text without quotes, backslashes or control characters is written as it is. */
  lemma {:induction false} EscapePlain(s: string)
    requires forall i :: 0 <= i < |s| ==> s[i] != '"' && s[i] != '\\' && s[i] as int >= 0x20
    ensures Escape(s) == s
  {
    if s != [] {
      EscapePlain(s[1..]);
      assert s == [s[0]] + s[1..];
    }
  }

  function JsonString(s: string): string {
    "\"" + Escape(s) + "\""
  }

  /** One `"key":value` member of a JSON object. */
  function Member(key: string, value: string): string {
    "\"" + key + "\":" + value
  }

  function ServiceMembers(d: DetectedService): seq<string> {
    [ Member("name", JsonString(d.name)),
      Member("version", JsonString(d.version)),
      Member("status", StatusJson(d.status)),
      Member("port", NatToString(d.port as nat)) ]
  }

  /** `serde_json::to_string` of a `DetectedService`: its fields in declaration order. */
  function ServiceJson(d: DetectedService): string {
    "{" + Join(ServiceMembers(d), ",") + "}"
  }

  /** Every serialised service carries each of its members, its status and port among them. */
  lemma ServiceJsonMembers(d: DetectedService, k: nat)
    requires k < 4
    ensures Contains(ServiceJson(d), ServiceMembers(d)[k])
  {
    var body := Join(ServiceMembers(d), ",");
    JoinContainsPart(ServiceMembers(d), ",", k);
    ContainsInRight("{", body, ServiceMembers(d)[k]);
    ContainsInLeft("{" + body, "}", ServiceMembers(d)[k]);
  }

  /**
    A running service on port 3306 (the MySQL sample, whatever its name and version)
    serialises with `"status":"running"` and `"port":3306`.
  */
  lemma DetectedServiceJsonSample(d: DetectedService, status: string, port: string)
    requires d.status == Running && d.port == 3306
    requires status == "\"status\":\"running\"" && port == "\"port\":3306"
    ensures Contains(ServiceJson(d), status)
    ensures Contains(ServiceJson(d), port)
  {
    RunningMember(status);
    PortMember(port);
    ServiceJsonMembers(d, 2);
    ServiceJsonMembers(d, 3);
  }

  lemma RunningMember(status: string)
    requires status == "\"status\":\"running\""
    ensures Member("status", StatusJson(Running)) == status
  {
  }

  lemma PortMember(port: string)
    requires port == "\"port\":3306"
    ensures Member("port", NatToString(3306)) == port
  {
    assert NatToString(3306) == "3306";
  }

  // ---------------------------------------------------------------------------
  // Probing the remote host
  // ---------------------------------------------------------------------------

  /** The commands the detectors run, one constructor per distinct command line. */
  datatype Probe =
    | Which(svc: Service)
    | VersionOf(svc: Service)
    | Ping
    | Info
    | Systemctl(svc: Service)
    | PgrepMysqld
    | PgrepRedisServer
    | PgrepPostgres

  /** The shell command line each probe sends through `exec_command`. */
  function CommandLine(p: Probe): string {
    match p
    case Which(Mysql) => "which mysql 2>/dev/null || which mysqld 2>/dev/null"
    case Which(Redis) => "which redis-server 2>/dev/null || which redis-cli 2>/dev/null"
    case Which(Postgresql) => "which psql 2>/dev/null"
    case Which(Docker) => "which docker 2>/dev/null"
    case VersionOf(Mysql) => "mysql --version 2>/dev/null"
    case VersionOf(Redis) => "redis-cli --version 2>/dev/null"
    case VersionOf(Postgresql) => "psql --version 2>/dev/null"
    case VersionOf(Docker) => "docker --version 2>/dev/null"
    case Ping => "redis-cli ping 2>/dev/null"
    case Info => "docker info >/dev/null 2>&1"
    case Systemctl(Mysql) =>
      "systemctl is-active mysql 2>/dev/null || systemctl is-active mysqld 2>/dev/null || systemctl is-active mariadb 2>/dev/null"
    case Systemctl(Redis) => "systemctl is-active redis 2>/dev/null || systemctl is-active redis-server 2>/dev/null"
    case Systemctl(Postgresql) => "systemctl is-active postgresql 2>/dev/null"
    case Systemctl(Docker) => "systemctl is-active docker 2>/dev/null"
    case PgrepMysqld => "pgrep -x mysqld >/dev/null 2>&1 && echo active"
    case PgrepRedisServer => "pgrep -x redis-server >/dev/null 2>&1 && echo active"
    case PgrepPostgres => "pgrep -x postgres >/dev/null 2>&1 && echo active"
  }

  /** What `exec_command` answers for each probe's command line. */
  type Remote = Probe -> Result<ExecOutput, SessionError>

  /** The remote host as seen through a session that is connected or not, with one exec channel per command line. */
  function SessionRemote(connected: bool, channels: string -> ExecChannel): Remote {
    p => ExecReply(connected, channels(CommandLine(p)))
  }

  /** `.unwrap_or((-1, String::new()))`: a failed exec reads as exit code -1 and no output. */
  function OutputOr(r: Result<ExecOutput, SessionError>): (o: ExecOutput)
    ensures r.Success? ==> o == r.value
    ensures r.Failure? ==> o.exitCode == -1 && o.stdout == []
  {
    if r.Success? then r.value else ExecOutput(-1, [])
  }

  /** The command ran, exited 0 and printed something containing "active". */
  predicate ReportsActive(r: Result<ExecOutput, SessionError>) {
    r.Success? && r.value.exitCode == 0 && Contains(r.value.stdout, "active")
  }

  /**
    `check_service_status`: Running as soon as one command, tried in order, exits 0 with
    "active" in its output; Stopped when none does. Never Installed.
  */
  function CheckServiceStatus(remote: Remote, commands: seq<Probe>): (s: ServiceStatus)
    ensures s == Running <==> exists i :: 0 <= i < |commands| && ReportsActive(remote(commands[i]))
    ensures s != Installed
  {
    if commands == [] then Stopped
    else if ReportsActive(remote(commands[0])) then Running
    else
      var s := CheckServiceStatus(remote, commands[1..]);
      assert forall i :: 1 <= i < |commands| ==> commands[i] == commands[1..][i - 1];
      s
  }

  /**
    The commands `check_service_status` actually sends: the list up to and including the
    first that reports active, or all of them.
  */
  function StatusProbes(remote: Remote, commands: seq<Probe>): (sent: seq<Probe>)
    ensures sent <= commands
    ensures forall i :: 0 <= i < |sent| - 1 ==> !ReportsActive(remote(sent[i]))
    ensures CheckServiceStatus(remote, commands) == Running <==> sent != [] && ReportsActive(remote(sent[|sent| - 1]))
    ensures CheckServiceStatus(remote, commands) == Stopped ==> sent == commands
  {
    if commands == [] then []
    else if ReportsActive(remote(commands[0])) then [commands[0]]
    else [commands[0]] + StatusProbes(remote, commands[1..])
  }

  /** A command whose output says "inactive" counts as active exactly when it exits 0. */
  lemma InactiveNeedsExitCode(code: int, out: string)
    requires out == "inactive"
    ensures ReportsActive(Success(ExecOutput(code, out))) <==> code == 0
  {
    ContainsAt(out, "active", 2);
  }

  function Name(svc: Service): string {
    match svc
    case Mysql => "mysql"
    case Redis => "redis"
    case Postgresql => "postgresql"
    case Docker => "docker"
  }

  /** The local port a tunnel to the service would use; Docker has none. */
  function Port(svc: Service): uint16 {
    match svc
    case Mysql => 3306
    case Redis => 6379
    case Postgresql => 5432
    case Docker => 0
  }

  /** The fallbacks handed to `check_service_status`. */
  function StatusCommands(svc: Service): seq<Probe> {
    match svc
    case Mysql => [Systemctl(Mysql), PgrepMysqld]
    case Redis => [Systemctl(Redis), PgrepRedisServer]
    case Postgresql => [Systemctl(Postgresql), PgrepPostgres]
    case Docker => [Systemctl(Docker)]
  }

  /**
    The direct liveness check Redis and Docker make before the fallbacks: `redis-cli ping`
    exits 0 and answers "PONG"; `docker info` exits 0.
  */
  predicate QuickRunning(svc: Service, remote: Remote) {
    match svc
    case Redis =>
      var ping := OutputOr(remote(Ping));
      ping.exitCode == 0 && Contains(ping.stdout, "PONG")
    case Docker => OutputOr(remote(Info)).exitCode == 0
    case _ => false
  }

  /** The `which` probe ran and exited 0. */
  predicate BinaryFound(svc: Service, remote: Remote) {
    var which := remote(Which(svc));
    which.Success? && which.value.exitCode == 0
  }

  /**
    Whether a found service runs: its direct check, then `check_service_status` over its
    fallbacks. Running exactly when one of them reports so, and never Installed.
  */
  function Status(svc: Service, remote: Remote): (st: ServiceStatus)
    ensures st != Installed
    ensures st == Running <==>
      QuickRunning(svc, remote) || exists i :: 0 <= i < |StatusCommands(svc)| && ReportsActive(remote(StatusCommands(svc)[i]))
  {
    if QuickRunning(svc, remote) then Running else CheckServiceStatus(remote, StatusCommands(svc))
  }

  /** The version a found service reports: read from its `--version` output, "unknown" if that probe failed. */
  function Version(svc: Service, remote: Remote): string {
    ParseVersion(OutputOr(remote(VersionOf(svc))).stdout)
  }

  /**
    `detect_mysql`, `detect_redis`, `detect_postgresql` and `detect_docker`: nothing unless
    the binary is found; then its name and fixed port, its version and its status.
  */
  function Detect(svc: Service, remote: Remote): (d: Option<DetectedService>)
    ensures d.Some? <==> BinaryFound(svc, remote)
    ensures d.Some? ==> d.value == DetectedService(Name(svc), Version(svc, remote), Status(svc, remote), Port(svc))
  {
    if !BinaryFound(svc, remote) then None
    else Some(DetectedService(Name(svc), Version(svc, remote), Status(svc, remote), Port(svc)))
  }

  /** A version probe that fails leaves the version "unknown". */
  lemma VersionUnknownWhenProbeFails(svc: Service, remote: Remote)
    requires remote(VersionOf(svc)).Failure?
    ensures Version(svc, remote) == "unknown"
  {
    assert SplitWhitespace([]) == [];
  }

  /** Redis answering the ping is Running, whatever systemd and pgrep say. */
  lemma RedisPongRunning(remote: Remote, out: string)
    requires remote(Ping) == Success(ExecOutput(0, out)) && Contains(out, "PONG")
    ensures Status(Redis, remote) == Running
  {
  }

  /** A Docker daemon answering `docker info` is Running, whatever systemd says. */
  lemma DockerInfoRunning(remote: Remote)
    requires remote(Info).Success? && remote(Info).value.exitCode == 0
    ensures Status(Docker, remote) == Running
  {
  }

  /** Through a session that is not connected every probe fails, so nothing is detected. */
  lemma DisconnectedDetectsNothing(svc: Service, channels: string -> ExecChannel)
    ensures Detect(svc, SessionRemote(false, channels)).None?
  {
    var cmd := CommandLine(Which(svc));
    assert SessionRemote(false, channels)(Which(svc)) == ExecReply(false, channels(cmd));
  }

  // ---------------------------------------------------------------------------
  // detect_all
  // ---------------------------------------------------------------------------

  function Rank(svc: Service): nat {
    match svc
    case Mysql => 0
    case Redis => 1
    case Postgresql => 2
    case Docker => 3
  }

  const AllServices: seq<Service> := [Mysql, Redis, Postgresql, Docker]

  ghost predicate Ascending(svcs: seq<Service>) {
    forall i, j :: 0 <= i < j < |svcs| ==> Rank(svcs[i]) < Rank(svcs[j])
  }

  lemma AllServicesAscending()
    ensures Ascending(AllServices)
  {
    forall i, j | 0 <= i < j < 4 ensures Rank(AllServices[i]) < Rank(AllServices[j]) {
      assert Rank(AllServices[i]) == i && Rank(AllServices[j]) == j;
    }
  }

  /** The services among `svcs` whose binary is found, in the same order. */
  function Present(svcs: seq<Service>, remote: Remote): (found: seq<Service>)
    ensures |found| <= |svcs|
    ensures forall s :: s in found ==> s in svcs && BinaryFound(s, remote)
  {
    if svcs == [] then []
    else if BinaryFound(svcs[0], remote) then [svcs[0]] + Present(svcs[1..], remote)
    else Present(svcs[1..], remote)
  }

  /** A service is present exactly when it is listed and its binary is found. */
  lemma {:induction false} PresentIff(svcs: seq<Service>, remote: Remote, s: Service)
    ensures s in Present(svcs, remote) <==> s in svcs && BinaryFound(s, remote)
  {
    if svcs != [] {
      PresentIff(svcs[1..], remote, s);
      assert svcs == [svcs[0]] + svcs[1..];
    }
  }

  /** Filtering keeps the order of the services. */
  lemma {:induction false} PresentAscending(svcs: seq<Service>, remote: Remote)
    requires Ascending(svcs)
    ensures Ascending(Present(svcs, remote))
  {
    if svcs != [] {
      var rest := Present(svcs[1..], remote);
      PresentAscending(svcs[1..], remote);
      if BinaryFound(svcs[0], remote) {
        forall j | 0 <= j < |rest| ensures Rank(svcs[0]) < Rank(rest[j]) {
          assert rest[j] in svcs[1..];
        }
      }
    }
  }

  function Found<T>(d: Option<T>): seq<T> {
    if d.Some? then [d.value] else []
  }

  /** The detector of every service against one remote host. */
  function Detector(remote: Remote): Service -> Option<DetectedService> {
    svc => Detect(svc, remote)
  }

  /** What `detect` reports for `svcs`, in order, absent services left out. */
  function Findings(svcs: seq<Service>, detect: Service -> Option<DetectedService>): seq<DetectedService> {
    if svcs == [] then [] else Found(detect(svcs[0])) + Findings(svcs[1..], detect)
  }

  /**
    One finding per present service, in the same order, for any detector that finds exactly
    the services whose binary is there: the detection of that service.
  */
  lemma {:induction false} FindingsMatchPresent(svcs: seq<Service>, remote: Remote, detect: Service -> Option<DetectedService>)
    requires forall svc :: detect(svc).Some? <==> BinaryFound(svc, remote)
    ensures |Findings(svcs, detect)| == |Present(svcs, remote)|
    ensures forall i :: 0 <= i < |Findings(svcs, detect)| ==>
      detect(Present(svcs, remote)[i]) == Some(Findings(svcs, detect)[i])
  {
    if svcs != [] {
      var d := detect(svcs[0]);
      var fs := Findings(svcs[1..], detect);
      var ps := Present(svcs[1..], remote);
      FindingsMatchPresent(svcs[1..], remote, detect);
      assert Findings(svcs, detect) == Found(d) + fs;
      if d.Some? {
        assert Present(svcs, remote) == [svcs[0]] + ps;
        forall i | 0 < i < 1 + |fs|
          ensures detect(([svcs[0]] + ps)[i]) == Some(([d.value] + fs)[i])
        {
          assert ([svcs[0]] + ps)[i] == ps[i - 1];
          assert ([d.value] + fs)[i] == fs[i - 1];
        }
      } else {
        assert Found(d) + fs == fs;
      }
    }
  }

  /** MySQL, Redis, PostgreSQL and Docker are reported in this order, each at most once. */
  lemma DetectionOrder(remote: Remote)
    ensures |Present(AllServices, remote)| <= 4
    ensures Ascending(Present(AllServices, remote))
  {
    AllServicesAscending();
    PresentAscending(AllServices, remote);
  }

  /**
    `detect_all`: the findings of the four detectors, MySQL, Redis, PostgreSQL, Docker, one
    after the other.
  */
  method DetectAll(remote: Remote) returns (services: seq<DetectedService>)
    ensures services == Findings(AllServices, Detector(remote))
  {
    var mysql := Detect(Mysql, remote);
    var redis := Detect(Redis, remote);
    var postgres := Detect(Postgresql, remote);
    var docker := Detect(Docker, remote);
    services := [];
    services := PushFound(services, mysql);
    services := PushFound(services, redis);
    services := PushFound(services, postgres);
    services := PushFound(services, docker);
    FindingsOfFour(Mysql, Redis, Postgresql, Docker, Detector(remote));
  }

  /** `if let Some(s) = d { services.push(s); }` */
  method PushFound<T>(services: seq<T>, d: Option<T>) returns (r: seq<T>)
    ensures r == services + Found(d)
  {
    r := services;
    if d.Some? {
      r := r + [d.value];
    }
  }

  /** The findings for four services are those of each, one after the other. */
  lemma FindingsOfFour(a: Service, b: Service, c: Service, d: Service, detect: Service -> Option<DetectedService>)
    ensures Findings([a, b, c, d], detect) == [] + Found(detect(a)) + Found(detect(b)) + Found(detect(c)) + Found(detect(d))
  {
    var fa, fb, fc, fd := Found(detect(a)), Found(detect(b)), Found(detect(c)), Found(detect(d));
    assert [d][1..] == [];
    assert Findings([d], detect) == fd + [] == fd;
    assert [c, d][1..] == [d];
    assert Findings([c, d], detect) == fc + fd;
    assert [b, c, d][1..] == [c, d];
    assert Findings([b, c, d], detect) == fb + (fc + fd);
    assert [a, b, c, d][1..] == [b, c, d];
    assert Findings([a, b, c, d], detect) == fa + (fb + (fc + fd));
    Regroup(fa, fb, fc, fd);
  }

  lemma Regroup<T>(a: seq<T>, b: seq<T>, c: seq<T>, d: seq<T>)
    ensures [] + a + b + c + d == a + (b + (c + d))
  {
    assert [] + a == a;
  }

  /**
    What `detect_all` returns: one entry per installed service, each that service's
    detection, at most four and in the order MySQL, Redis, PostgreSQL, Docker.
  */
  lemma DetectAllFindings(remote: Remote)
    ensures var found := Present(AllServices, remote);
      var services := Findings(AllServices, Detector(remote));
      && |services| == |found| <= 4
      && Ascending(found)
      && forall i :: 0 <= i < |found| ==> Detect(found[i], remote) == Some(services[i])
  {
    FindingsMatchPresent(AllServices, remote, Detector(remote));
    DetectionOrder(remote);
  }

  /** A host reached through a disconnected session reports no services. */
  method DetectAllDisconnected(channels: string -> ExecChannel) returns (services: seq<DetectedService>)
    ensures services == []
  {
    services := DetectAll(SessionRemote(false, channels));
    DisconnectedDetectsNothing(Mysql, channels);
    DisconnectedDetectsNothing(Redis, channels);
    DisconnectedDetectsNothing(Postgresql, channels);
    DisconnectedDetectsNothing(Docker, channels);
  }
}
