/** The device registry (`connected_devices`): connection id to device record.
    A device is identified by its Socket.IO connection id; admitting a device
    evicts every other device that connected from the same address. */
module Registry {
  import opened Wrappers

  /** A Socket.IO connection id. */
  type Sid = string

  datatype Device = Device(id: Sid, name: string, ip: Option<string>)

  /** `f'Device_{device_id[:6]}'`, the name of a device that gave none. */
  function DefaultName(id: Sid): (name: string)
    ensures |name| == 7 + (if |id| < 6 then |id| else 6)
    ensures name[..7] == "Device_"
    ensures name[7..] == id[..|name| - 7]
  {
    "Device_" + (if |id| < 6 then id else id[..6])
  }

  /** The name a connection registers under: the one it asked for, if any. */
  function NameFor(id: Sid, requested: Option<string>): (name: string)
    ensures requested.Some? ==> name == requested.value
    ensures requested.None? ==> name == DefaultName(id)
  {
    if requested.Some? then requested.value else DefaultName(id)
  }

  /** Every record is stored under its own id. */
  ghost predicate KeyedById(m: map<Sid, Device>) {
    forall s :: s in m ==> m[s].id == s
  }

  /** No two registered devices share an address. */
  ghost predicate UniqueIps(m: map<Sid, Device>) {
    forall s, t :: s in m && t in m && s != t ==> m[s].ip != m[t].ip
  }

  /** The devices a new connection `id` from `ip` evicts. */
  function Evictees(m: map<Sid, Device>, id: Sid, ip: Option<string>): (e: set<Sid>)
    ensures forall s :: s in e <==> s in m && s != id && m[s].ip == ip
  {
    set s | s in m && s != id && m[s].ip == ip
  }

  /** The registry after `handle_connect` admits `id` from `ip`. */
  function Admit(m: map<Sid, Device>, id: Sid, name: string, ip: Option<string>): (r: map<Sid, Device>)
    ensures id in r && r[id] == Device(id, name, ip)
    ensures forall s :: s in r && r[s].ip == ip ==> s == id
    ensures forall s :: s in m && s != id && m[s].ip != ip ==> s in r && r[s] == m[s]
    ensures forall s :: s in r ==> s == id || (s in m && r[s] == m[s])
    ensures KeyedById(m) ==> KeyedById(r)
    ensures UniqueIps(m) ==> UniqueIps(r)
  {
    (m - Evictees(m, id, ip))[id := Device(id, name, ip)]
  }

  /** Admitting a run of connections, all from the same address. */
  function AdmitAll(m: map<Sid, Device>, arrivals: seq<(Sid, string)>, ip: Option<string>): map<Sid, Device>
    decreases |arrivals|
  {
    if arrivals == [] then m else AdmitAll(Admit(m, arrivals[0].0, arrivals[0].1, ip), arrivals[1..], ip)
  }

  /** After any run of admissions from one address, the registry holds exactly
      one device for that address: the one admitted last. */
  lemma {:induction false} LatestArrivalWins(m: map<Sid, Device>, arrivals: seq<(Sid, string)>, ip: Option<string>)
    requires arrivals != []
    ensures var r := AdmitAll(m, arrivals, ip);
            var last := arrivals[|arrivals| - 1];
            last.0 in r && r[last.0] == Device(last.0, last.1, ip) &&
            forall s :: s in r && r[s].ip == ip ==> s == last.0
    decreases |arrivals|
  {
    if |arrivals| > 1 {
      LatestArrivalWins(Admit(m, arrivals[0].0, arrivals[0].1, ip), arrivals[1..], ip);
    }
  }
}
