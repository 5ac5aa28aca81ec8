/**
 * The decision logic of the backend service (backend/app.py): the bounded
 * retry policy of the device calls, logging in and building the Cookie
 * header, fetching a device's settings, pushing the default document to a
 * device, the bulk fan-out, the ping rule, the live-address filter and the
 * assembly of the discovered device list.
 *
 * Every network exchange is an input: a sequence of per-attempt outcomes for
 * a retried call, or the reply a single request would get.
 */
module Discovery {
  import opened Wrappers
  import opened Dicts
  import opened Json
  import opened Ipv4
  import opened Cookies
  import opened MagewellSettings

  // ---- Retry policy ----

  /** `stop_after_attempt(3)`. */
  const MaxAttempts: nat := 3

  /** What one attempt of a retried call does. `ClientError` is any `aiohttp.ClientError`. */
  datatype Attempt<T> = Succeeded(value: T) | ClientError | OtherError

  /**
   * How a retried call ends for its caller: a value, the retry error raised
   * once the last attempt has failed with a client error, or a different
   * exception, which is raised at once without another attempt.
   */
  datatype Retried<T> = Done(value: T) | RetryGaveUp | Raised

  datatype RetryRun<T> = RetryRun(outcome: Retried<T>, calls: nat)

  function Outcome<T>(a: Attempt<T>): Retried<T>
  {
    match a
    case Succeeded(v) => Done(v)
    case ClientError => RetryGaveUp
    case OtherError => Raised
  }

  /** The rest of a retried call once `made` attempts have all failed with client errors. */
  function RetryFrom<T>(attempts: seq<Attempt<T>>, made: nat): (run: RetryRun<T>)
    requires made < MaxAttempts <= |attempts|
    ensures made < run.calls <= MaxAttempts
    ensures forall j :: made <= j < run.calls - 1 ==> attempts[j].ClientError?
    ensures run.calls < MaxAttempts ==> !attempts[run.calls - 1].ClientError?
    ensures run.outcome == Outcome(attempts[run.calls - 1])
    decreases MaxAttempts - made
  {
    match attempts[made]
    case Succeeded(v) => RetryRun(Done(v), made + 1)
    case OtherError => RetryRun(Raised, made + 1)
    case ClientError =>
      if made + 1 == MaxAttempts then RetryRun(RetryGaveUp, made + 1)
      else RetryFrom(attempts, made + 1)
  }

  /**
   * A call under `@retry(stop=stop_after_attempt(3),
   * retry=retry_if_exception_type(aiohttp.ClientError))`; `attempts[j]` is
   * what attempt `j` would do.
   */
  function Retry<T>(attempts: seq<Attempt<T>>): (run: RetryRun<T>)
    requires MaxAttempts <= |attempts|
    ensures 1 <= run.calls <= MaxAttempts
    ensures forall j :: 0 <= j < run.calls - 1 ==> attempts[j].ClientError?
    ensures run.calls < MaxAttempts ==> !attempts[run.calls - 1].ClientError?
    ensures run.outcome == Outcome(attempts[run.calls - 1])
  {
    RetryFrom(attempts, 0)
  }

  /**
   * Retrying with an explicit attempt counter: at most three attempts, and
   * only a client error leads to another one.
   */
  method CallWithRetry<T>(attempts: seq<Attempt<T>>) returns (outcome: Retried<T>, calls: nat)
    requires MaxAttempts <= |attempts|
    ensures RetryRun(outcome, calls) == Retry(attempts)
  {
    calls := 0;
    while true
      invariant calls < MaxAttempts
      invariant Retry(attempts) == RetryFrom(attempts, calls)
      decreases MaxAttempts - calls
    {
      var attempt := attempts[calls];
      calls := calls + 1;
      match attempt {
        case Succeeded(v) =>
          return Done(v), calls;
        case OtherError =>
          return Raised, calls;
        case ClientError =>
          if calls == MaxAttempts {
            return RetryGaveUp, calls;
          }
      }
    }
  }

  /** A first attempt that succeeds or fails with anything but a client error is the only one. */
  lemma RetryStopsEarly<T>(attempts: seq<Attempt<T>>)
    requires MaxAttempts <= |attempts|
    requires !attempts[0].ClientError?
    ensures Retry(attempts) == RetryRun(Outcome(attempts[0]), 1)
  {
  }

  /** Three client errors in a row exhaust the policy. */
  lemma RetryGivesUp<T>(attempts: seq<Attempt<T>>)
    requires MaxAttempts <= |attempts|
    requires attempts[0].ClientError? && attempts[1].ClientError? && attempts[2].ClientError?
    ensures Retry(attempts) == RetryRun(RetryGaveUp, MaxAttempts)
  {
  }

  // ---- Login and settings fetch ----

  /**
   * `login_device`: the retried login; a successful attempt yields the
   * response's cookies, turned into the Cookie header.
   */
  function LoginDevice(attempts: seq<Attempt<seq<Cookie>>>): (run: RetryRun<string>)
    requires MaxAttempts <= |attempts|
    ensures run.calls == Retry(attempts).calls
    ensures run.outcome.Done? <==> Retry(attempts).outcome.Done?
    ensures run.outcome.Done? ==> run.outcome.value == CookieHeader(Retry(attempts).outcome.value)
  {
    var run := Retry(attempts);
    match run.outcome
    case Done(cookies) => RetryRun(Done(CookieHeader(cookies)), run.calls)
    case RetryGaveUp => RetryRun(RetryGaveUp, run.calls)
    case Raised => RetryRun(Raised, run.calls)
  }

  /** What the single get-settings request would get back. */
  datatype FetchReply = FetchFailed | FetchReturned(data: Value)

  /** The settings obtained, and whether the get-settings request was sent. */
  datatype SettingsFetch = SettingsFetch(settings: Value, fetchSent: bool)

  /**
   * `get_device_settings_with_login`: the empty object when login fails by
   * any exception (no fetch is sent), or when the fetch fails; otherwise the
   * fetched JSON as it is.
   */
  function SettingsWithLogin(login: seq<Attempt<seq<Cookie>>>, fetch: FetchReply): (r: SettingsFetch)
    requires MaxAttempts <= |login|
    ensures r.fetchSent <==> Retry(login).outcome.Done?
    ensures !r.fetchSent ==> r.settings == Object([])
    ensures r.fetchSent && fetch.FetchFailed? ==> r.settings == Object([])
    ensures r.fetchSent && fetch.FetchReturned? ==> r.settings == fetch.data
  {
    if !LoginDevice(login).outcome.Done? then SettingsFetch(Object([]), false)
    else
      match fetch
      case FetchFailed => SettingsFetch(Object([]), true)
      case FetchReturned(data) => SettingsFetch(data, true)
  }

  /**
   * The retry decorator on `get_device_settings_with_login` never retries:
   * the function catches every exception, so its first attempt returns.
   */
  lemma SettingsFetchSingleAttempt(login: seq<Attempt<seq<Cookie>>>, fetch: FetchReply, later: seq<Attempt<SettingsFetch>>)
    requires MaxAttempts <= |login|
    requires |later| == MaxAttempts - 1
    ensures Retry([Succeeded(SettingsWithLogin(login, fetch))] + later) ==
      RetryRun(Done(SettingsWithLogin(login, fetch)), 1)
  {
  }

  // ---- Pushing the default document to a device ----

  /** One CSV row: the device's id and address. */
  datatype Row = Row(magewellId: string, magewellIp: string)

  /** One import-settings request sent to a device. */
  datatype ImportRequest = ImportRequest(ip: string, settings: Dict, cookie: string)

  datatype DeviceStatus = LoginFailed | ImportFailed | Imported

  /** What `process_device` did: how it ended, the login attempts and the import requests sent. */
  datatype DeviceRun = DeviceRun(status: DeviceStatus, loginCalls: nat, imports: seq<ImportRequest>)

  /**
   * `process_device`: log in, then send the device's own default document.
   * A failed login ends the device's run before any import request; a
   * failed import is caught. Either way nothing is raised.
   */
  function ProcessDevice(row: Row, login: seq<Attempt<seq<Cookie>>>, importAttempts: seq<Attempt<Value>>): (run: DeviceRun)
    requires MaxAttempts <= |login| && MaxAttempts <= |importAttempts|
    ensures run.loginCalls == Retry(login).calls
    ensures run.status == LoginFailed <==> !Retry(login).outcome.Done?
    ensures run.status == LoginFailed ==> run.imports == []
    ensures run.status != LoginFailed ==> 1 <= |run.imports| == Retry(importAttempts).calls <= MaxAttempts
    ensures run.status != LoginFailed ==>
      forall j :: 0 <= j < |run.imports| ==>
        run.imports[j] == ImportRequest(row.magewellIp, GetModifiedSettings(row.magewellId), CookieHeader(Retry(login).outcome.value))
    ensures run.status == Imported <==> Retry(login).outcome.Done? && Retry(importAttempts).outcome.Done?
  {
    var loginRun := LoginDevice(login);
    if !loginRun.outcome.Done? then DeviceRun(LoginFailed, loginRun.calls, [])
    else
      var request := ImportRequest(row.magewellIp, GetModifiedSettings(row.magewellId), loginRun.outcome.value);
      var importRun := Retry(importAttempts);
      var sent := seq(importRun.calls, _ => request);
      DeviceRun(if importRun.outcome.Done? then Imported else ImportFailed, loginRun.calls, sent)
  }

  /** Every document pushed to a device carries that device's own recording channels. */
  lemma PushedIdentity(row: Row, login: seq<Attempt<seq<Cookie>>>, importAttempts: seq<Attempt<Value>>, j: nat)
    requires MaxAttempts <= |login| && MaxAttempts <= |importAttempts|
    requires j < |ProcessDevice(row, login, importAttempts).imports|
    ensures Get(ProcessDevice(row, login, importAttempts).imports[j].settings, RecChannelsKey) == Some(RecChannels(row.magewellId))
  {
    DefaultRecChannels(row.magewellId);
  }

  /**
   * `run_bulk_update`: every row is processed on its own; `logins[i]` and
   * `imports[i]` are what row `i`'s calls would do.
   */
  function RunBulkUpdate(rows: seq<Row>, logins: seq<seq<Attempt<seq<Cookie>>>>, imports: seq<seq<Attempt<Value>>>): (runs: seq<DeviceRun>)
    requires |logins| == |rows| && |imports| == |rows|
    requires forall i :: 0 <= i < |rows| ==> MaxAttempts <= |logins[i]| && MaxAttempts <= |imports[i]|
    ensures |runs| == |rows|
    ensures forall i :: 0 <= i < |rows| ==> runs[i] == ProcessDevice(rows[i], logins[i], imports[i])
  {
    seq(|rows|, i requires 0 <= i < |rows| => ProcessDevice(rows[i], logins[i], imports[i]))
  }

  /**
   * Failure isolation: what happens to one row's calls does not change the
   * outcome of any other row.
   */
  lemma BulkIsolation(rows: seq<Row>,
                      logins: seq<seq<Attempt<seq<Cookie>>>>, imports: seq<seq<Attempt<Value>>>,
                      logins': seq<seq<Attempt<seq<Cookie>>>>, imports': seq<seq<Attempt<Value>>>,
                      j: nat)
    requires |logins| == |rows| && |imports| == |rows| && |logins'| == |rows| && |imports'| == |rows|
    requires forall i :: 0 <= i < |rows| ==> MaxAttempts <= |logins[i]| && MaxAttempts <= |imports[i]|
    requires forall i :: 0 <= i < |rows| ==> MaxAttempts <= |logins'[i]| && MaxAttempts <= |imports'[i]|
    requires forall i :: 0 <= i < |rows| && i != j ==> logins'[i] == logins[i] && imports'[i] == imports[i]
    ensures forall i :: 0 <= i < |rows| && i != j ==>
      RunBulkUpdate(rows, logins', imports')[i] == RunBulkUpdate(rows, logins, imports)[i]
  {
  }

  // ---- Ping rule ----

  /** What a ping request got: the request failed, or a reply whose body did or did not parse as JSON. */
  datatype PingReply = PingFailed | PingReplied(body: Option<Value>)

  /** Python's `v == 0`: `False` and `0.0` are equal to `0` too. */
  predicate EqualsZero(v: Value)
  {
    match v
    case Int(i) => i == 0
    case Float(f) => f == 0.0
    case Bool(b) => !b
    case _ => false
  }

  /** The JSON values Python finds equal to `0` or to `"0"`. */
  const SuccessCodes: set<Value> := {Int(0), Float(0.0), Bool(false), Str("0")}

  /**
   * `ping_magewell`: live exactly when the reply's body parsed as a JSON
   * object whose "result" equals 0 or "0". A failed request, a body that is
   * not JSON, or JSON that is not an object (`.get` raises, and it is
   * caught) all read as not live; nothing is raised.
   */
  function PingMagewell(reply: PingReply): (live: bool)
    ensures live <==>
      reply.PingReplied? && reply.body.Some? && reply.body.value.Object? &&
      "result" in Keys(reply.body.value.members) &&
      Get(reply.body.value.members, "result").value in SuccessCodes
  {
    match reply
    case PingFailed => false
    case PingReplied(None) => false
    case PingReplied(Some(data)) =>
      match data
      case Object(members) =>
        var result := GetOr(members, "result", Null);
        EqualsZero(result) || result == Str("0")
      case _ => false
  }

  // ---- Live filter ----

  /** An element of the gathered ping results: a returned bool, or an exception object. */
  datatype Gathered = Returned(b: bool) | GatherRaised

  /**
   * `[ip for ip, ok in zip(ips, results) if ok is True]`: the addresses
   * whose result is exactly `True`, in address-list order.
   */
  function LiveHosts(ips: seq<Address>, results: seq<Gathered>): (live: seq<Address>)
    ensures |live| <= |ips| && |live| <= |results|
    ensures forall a :: a in live ==> a in ips
    decreases |ips|
  {
    if ips == [] || results == [] then []
    else (if results[0] == Returned(true) then [ips[0]] else []) + LiveHosts(ips[1..], results[1..])
  }

  /** An address is kept iff some position pairs it with a `True` result. */
  lemma {:induction false} LiveHostsMembers(ips: seq<Address>, results: seq<Gathered>, a: Address)
    ensures a in LiveHosts(ips, results) <==>
      exists i :: 0 <= i < |ips| && i < |results| && ips[i] == a && results[i] == Returned(true)
    decreases |ips|
  {
    if ips != [] && results != [] {
      LiveHostsMembers(ips[1..], results[1..], a);
      if a in LiveHosts(ips[1..], results[1..]) {
        var i :| 0 <= i < |ips| - 1 && i < |results| - 1 && ips[1..][i] == a && results[1..][i] == Returned(true);
        assert ips[i + 1] == a && results[i + 1] == Returned(true);
      }
      if exists i :: 0 <= i < |ips| && i < |results| && ips[i] == a && results[i] == Returned(true) {
        var i :| 0 <= i < |ips| && i < |results| && ips[i] == a && results[i] == Returned(true);
        if i > 0 {
          assert ips[1..][i - 1] == a && results[1..][i - 1] == Returned(true);
        }
      }
    }
  }

  predicate Increasing(s: seq<Address>)
  {
    forall i, j :: 0 <= i < j < |s| ==> s[i] < s[j]
  }

  /** Filtering keeps address order: increasing addresses stay increasing, hence distinct. */
  lemma {:induction false} LiveHostsIncreasing(ips: seq<Address>, results: seq<Gathered>)
    requires Increasing(ips)
    ensures Increasing(LiveHosts(ips, results))
    decreases |ips|
  {
    if ips != [] && results != [] {
      var rest := LiveHosts(ips[1..], results[1..]);
      LiveHostsIncreasing(ips[1..], results[1..]);
      if results[0] == Returned(true) {
        forall a | a in rest
          ensures ips[0] < a
        {
          var k :| 0 <= k < |ips| - 1 && ips[1..][k] == a;
          assert ips[k + 1] == a;
        }
        IncreasingCons(ips[0], rest);
        assert LiveHosts(ips, results) == [ips[0]] + rest;
      } else {
        assert LiveHosts(ips, results) == [] + rest == rest;
      }
    }
  }

  /** An address below every element of an increasing sequence can lead it. */
  lemma IncreasingCons(x: Address, rest: seq<Address>)
    requires Increasing(rest)
    requires forall a :: a in rest ==> x < a
    ensures Increasing([x] + rest)
  {
    var s := [x] + rest;
    forall i, j | 0 <= i < j < |s|
      ensures s[i] < s[j]
    {
      assert s[j] == rest[j - 1] && rest[j - 1] in rest;
      if i > 0 {
        assert s[i] == rest[i - 1];
      }
    }
  }

  // ---- Device list ----

  /** An element of the gathered settings results: the returned value, or an exception object. */
  datatype SettingsResult = SettingsReturned(settings: Value) | SettingsRaised

  /** A discovered device as the endpoint reports it. */
  datatype DeviceEntry = DeviceEntry(ip: string, name: Value)

  /**
   * The name shown for a device: the settings' "name" when the settings are
   * an object that has one, and "" in every other case.
   */
  function DeviceName(r: SettingsResult): (name: Value)
    ensures r.SettingsReturned? && r.settings.Object? && "name" in Keys(r.settings.members) ==>
      Get(r.settings.members, "name") == Some(name)
    ensures !(r.SettingsReturned? && r.settings.Object? && "name" in Keys(r.settings.members)) ==>
      name == Str("")
  {
    match r
    case SettingsRaised => Str("")
    case SettingsReturned(settings) =>
      match settings
      case Object(members) => GetOr(members, "name", Str(""))
      case _ => Str("")
  }

  /**
   * The loop that pairs each discovered address with its settings result
   * (`zip` stops at the shorter list) and appends `{ip, name}`.
   */
  method BuildDeviceList(ips: seq<string>, results: seq<SettingsResult>) returns (devices: seq<DeviceEntry>)
    ensures |devices| == if |ips| <= |results| then |ips| else |results|
    ensures forall i :: 0 <= i < |devices| ==> devices[i].ip == ips[i]
    ensures forall i :: 0 <= i < |devices| ==> devices[i].name == DeviceName(results[i])
  {
    var n := if |ips| <= |results| then |ips| else |results|;
    devices := [];
    for i := 0 to n
      invariant |devices| == i
      invariant forall k :: 0 <= k < i ==> devices[k] == DeviceEntry(ips[k], DeviceName(results[k]))
    {
      var deviceName: Value;
      match results[i] {
        case SettingsRaised =>
          deviceName := Str("");
        case SettingsReturned(settings) =>
          if settings.Object? {
            deviceName := GetOr(settings.members, "name", Str(""));
          } else {
            deviceName := Str("");
          }
      }
      devices := devices + [DeviceEntry(ips[i], deviceName)];
    }
  }

  // ---- The discovery endpoint ----

  datatype DiscoveryResponse = InvalidSubnet(error: string) | Devices(devices: seq<DeviceEntry>)

  function FormatAll(ips: seq<Address>): (texts: seq<string>)
    ensures |texts| == |ips|
    ensures forall i :: 0 <= i < |ips| ==> texts[i] == FormatAddress(ips[i])
  {
    seq(|ips|, i requires 0 <= i < |ips| => FormatAddress(ips[i]))
  }

  function PingAll(hosts: seq<Address>, probe: Address -> PingReply): (results: seq<Gathered>)
    ensures |results| == |hosts|
    ensures forall i :: 0 <= i < |hosts| ==> results[i] == Returned(PingMagewell(probe(hosts[i])))
  {
    seq(|hosts|, i requires 0 <= i < |hosts| => Returned(PingMagewell(probe(hosts[i]))))
  }

  /** The addresses the endpoint reports for a valid subnet: live hosts, in host order. */
  function Discovered(n: Network, probe: Address -> PingReply): (live: seq<Address>)
    requires ValidNetwork(n)
    ensures |live| <= |Hosts(n)|
    ensures forall a :: a in live ==> a in Hosts(n)
  {
    LiveHosts(Hosts(n), PingAll(Hosts(n), probe))
  }

  /**
   * `discover_magewell`: reject a malformed subnet before probing; otherwise
   * ping every host, keep the live ones in host order, fetch each one's
   * settings with a login, and report `{ip, name}` per live host.
   * `probe`, `login` and `fetch` say how each host would answer.
   */
  method DiscoverMagewell(subnet: string, probe: Address -> PingReply,
                          login: string -> seq<Attempt<seq<Cookie>>>, fetch: string -> FetchReply)
    returns (response: DiscoveryResponse)
    requires forall ip :: MaxAttempts <= |login(ip)|
    ensures ParseNetwork(subnet).None? <==> response == InvalidSubnet("Invalid subnet: " + subnet)
    ensures ParseNetwork(subnet).Some? ==>
      var live := Discovered(ParseNetwork(subnet).value, probe);
      response.Devices? && |response.devices| == |live| &&
      forall i :: 0 <= i < |live| ==>
        response.devices[i] == DeviceEntry(FormatAddress(live[i]),
          DeviceName(SettingsReturned(SettingsWithLogin(login(FormatAddress(live[i])), fetch(FormatAddress(live[i]))).settings)))
  {
    var parsed := ParseNetwork(subnet);
    if parsed.None? {
      return InvalidSubnet("Invalid subnet: " + subnet);
    }
    var network := parsed.value;
    var ips := Hosts(network);
    var pingResults := PingAll(ips, probe);
    var magewellIps := FormatAll(LiveHosts(ips, pingResults));
    var settingsResults := seq(|magewellIps|, i requires 0 <= i < |magewellIps| =>
      SettingsReturned(SettingsWithLogin(login(magewellIps[i]), fetch(magewellIps[i])).settings));
    var devices := BuildDeviceList(magewellIps, settingsResults);
    return Devices(devices);
  }

  /**
   * Every reported device is a usable host of the subnet that answered the
   * ping, and no address is reported twice.
   */
  lemma DiscoveredAreLiveHosts(n: Network, probe: Address -> PingReply)
    requires ValidNetwork(n)
    ensures forall a :: a in Discovered(n, probe) ==>
      n.address < a < Broadcast(n) && PingMagewell(probe(a))
    ensures Increasing(Discovered(n, probe))
    ensures forall i, j :: 0 <= i < j < |Discovered(n, probe)| ==>
      FormatAddress(Discovered(n, probe)[i]) != FormatAddress(Discovered(n, probe)[j])
  {
    var hosts := Hosts(n);
    var results := PingAll(hosts, probe);
    LiveHostsIncreasing(hosts, results);
    forall a | a in Discovered(n, probe)
      ensures n.address < a < Broadcast(n) && PingMagewell(probe(a))
    {
      LiveHostsMembers(hosts, results, a);
      HostsExactly(n, a);
    }
    var live := Discovered(n, probe);
    forall i, j | 0 <= i < j < |live|
      ensures FormatAddress(live[i]) != FormatAddress(live[j])
    {
      if FormatAddress(live[i]) == FormatAddress(live[j]) {
        FormatAddressInjective(live[i], live[j]);
      }
    }
  }

  /** A host that answers the ping is reported. */
  lemma LiveHostReported(n: Network, probe: Address -> PingReply, a: Address)
    requires ValidNetwork(n)
    requires n.address < a < Broadcast(n) && PingMagewell(probe(a))
    ensures a in Discovered(n, probe)
  {
    var hosts := Hosts(n);
    HostsExactly(n, a);
    var i := a - n.address - 1;
    assert hosts[i] == a;
    LiveHostsMembers(hosts, PingAll(hosts, probe), a);
  }
}
