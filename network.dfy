/** The two address helpers of the server: the loopback filter applied to the
    machine's interface addresses (`get_ip_addresses`) and the choice of a
    connecting client's address (`get_device_ip`). Interface enumeration itself
    is a parameter: the addresses arrive as a list. */
module Network {
  import opened Wrappers

  predicate StartsWith(s: string, prefix: string) {
    |prefix| <= |s| && s[..|prefix|] == prefix
  }

  /** An IPv4 address in 127.0.0.0/8, recognised textually. */
  predicate IsLoopback(ip: string) {
    StartsWith(ip, "127.")
  }

  /** The interface addresses that are not loopback, in their original order. */
  function NonLoopback(ips: seq<string>): (r: seq<string>)
    ensures forall ip :: ip in r <==> ip in ips && !IsLoopback(ip)
    ensures |r| <= |ips|
    ensures r != [] ==>
      exists k :: 0 <= k < |ips| && ips[k] == r[0] && forall j :: 0 <= j < k ==> IsLoopback(ips[j])
  {
    if ips == [] then []
    else if IsLoopback(ips[0]) then
      var rest := NonLoopback(ips[1..]);
      assert rest != [] ==> exists k :: 0 <= k < |ips| && ips[k] == rest[0] && forall j :: 0 <= j < k ==> IsLoopback(ips[j]) by {
        if rest != [] {
          var k :| 0 <= k < |ips[1..]| && ips[1..][k] == rest[0] && forall j :: 0 <= j < k ==> IsLoopback(ips[1..][j]);
          assert ips[k + 1] == rest[0];
          assert forall j :: 0 <= j < k + 1 ==> IsLoopback(ips[j]) by {
            forall j | 0 <= j < k + 1 ensures IsLoopback(ips[j]) {
              if j > 0 { assert ips[j] == ips[1..][j - 1]; }
            }
          }
        }
      }
      rest
    else [ips[0]] + NonLoopback(ips[1..])
  }

  /** `value.split(',')[0]`: the text before the first comma. */
  function FirstField(s: string): (r: string)
    ensures ',' !in r
    ensures |r| <= |s| && r == s[..|r|]
    ensures |r| < |s| ==> s[|r|] == ','
  {
    if s == [] || s[0] == ',' then [] else [s[0]] + FirstField(s[1..])
  }

  /** The two WSGI environment entries the server consults. */
  datatype RequestEnv = RequestEnv(forwardedFor: Option<string>, remoteAddr: Option<string>)

  /** The address the request reports: the first entry of a non-empty
      `X-Forwarded-For` header, otherwise `REMOTE_ADDR` (which may be absent). */
  function ReportedIp(env: RequestEnv): (r: Option<string>)
    ensures env.forwardedFor.Some? && env.forwardedFor.value != "" ==>
      r.Some? && ',' !in r.value && StartsWith(env.forwardedFor.value, r.value)
    ensures env.forwardedFor.Some? && env.forwardedFor.value != "" ==>
      r == Some(FirstField(env.forwardedFor.value))
    ensures (env.forwardedFor.None? || env.forwardedFor.value == "") ==> r == env.remoteAddr
  {
    if env.forwardedFor.Some? && env.forwardedFor.value != "" then Some(FirstField(env.forwardedFor.value))
    else env.remoteAddr
  }

  predicate IsLocalName(ip: Option<string>) {
    ip == Some("127.0.0.1") || ip == Some("localhost")
  }

  /** `get_device_ip`: the reported address, except that a client that reports
      itself as this very machine is given the machine's first non-loopback
      interface address, when it has one. */
  function DeviceIp(env: RequestEnv, interfaceAddrs: seq<string>): (r: Option<string>)
    ensures !IsLocalName(ReportedIp(env)) ==> r == ReportedIp(env)
    ensures IsLocalName(ReportedIp(env)) && (forall ip :: ip in interfaceAddrs ==> IsLoopback(ip)) ==>
      r == ReportedIp(env)
    ensures IsLocalName(ReportedIp(env)) && (exists ip :: ip in interfaceAddrs && !IsLoopback(ip)) ==>
      r.Some? && !IsLoopback(r.value) &&
      exists k :: 0 <= k < |interfaceAddrs| && interfaceAddrs[k] == r.value &&
        forall j :: 0 <= j < k ==> IsLoopback(interfaceAddrs[j])
  {
    var reported := ReportedIp(env);
    if IsLocalName(reported) then
      var network := NonLoopback(interfaceAddrs);
      if network != [] then Some(network[0]) else reported
    else reported
  }
}
