/** The desired and the discovered state of one edge node (internal/model/model.go), without
    the fields no modelled code reads. */
module Model {

  datatype Option<+T> = None | Some(value: T) {
    function GetOr(default: T): (r: T) {
      if None? then default else value
    }
  }

  datatype Backend = Backend(id: string, name: string, address: string)

  datatype TunnelType = WireGuard | SshTun | UnknownType(name: string)

  datatype Tunnel = Tunnel(
    id: string,
    backendId: string,
    kind: TunnelType,
    interfaceName: string,
    localOverlayIp: string,
    remoteOverlayIp: string,
    listenPort: int,
    endpoint: string,
    allowedIps: string,
    keepalive: int,
    privateKeyPath: string,
    publicKey: string,
    serviceName: string)

  datatype PortMapping = PortMapping(
    id: string,
    backendId: string,
    protocol: string,
    publicPort: int,
    backendPort: int)

  datatype SniMatch = SniMatch(host: string, isDefault: bool, backendId: string, backend: string)

  datatype SniRoute = SniRoute(id: string, listen: string, matches: seq<SniMatch>)

  datatype DesiredState = DesiredState(
    nodeId: string,
    backends: seq<Backend>,
    tunnels: seq<Tunnel>,
    mappings: seq<PortMapping>,
    sniRoutes: seq<SniRoute>)

  datatype TunnelActual = TunnelActual(
    kind: TunnelType,
    interfaceName: string,
    interfacePresent: bool,
    localOverlayIp: string,
    listenPort: int,
    serviceActive: bool)

  datatype FirewallRule = FirewallRule(chain: string, comment: string, spec: string, managed: bool)

  datatype Conflict = Conflict(code: string, target: string)

  datatype ActualState = ActualState(
    tunnels: seq<TunnelActual>,
    firewallRules: seq<FirewallRule>,
    haproxyDigest: string,
    sniRoutes: seq<SniRoute>,
    conflicts: seq<Conflict>)

  // -------------------------------------------------------- tables by key

  /** Filling a table from a list: a later entry replaces an earlier one of the same key. */
  function ByKey<T>(xs: seq<T>, key: T -> string): (r: map<string, T>) {
    if xs == [] then map[]
    else
      var last := xs[|xs| - 1];
      ByKey(xs[..|xs| - 1], key)[key(last) := last]
  }

  ghost predicate UniqueKeys<T>(xs: seq<T>, key: T -> string) {
    forall i, j | 0 <= i < j < |xs| :: key(xs[i]) != key(xs[j])
  }

  lemma {:induction false} ByKeyKeys<T>(xs: seq<T>, key: T -> string)
    ensures forall k :: k in ByKey(xs, key) <==> exists i :: 0 <= i < |xs| && key(xs[i]) == k
    ensures forall k | k in ByKey(xs, key) :: ByKey(xs, key)[k] in xs && key(ByKey(xs, key)[k]) == k
  {
    if xs != [] {
      var n := |xs| - 1;
      ByKeyKeys(xs[..n], key);
      forall k | k in ByKey(xs, key)
        ensures exists i :: 0 <= i < |xs| && key(xs[i]) == k
      {
        if k != key(xs[n]) {
          assert k in ByKey(xs[..n], key);
          var i :| 0 <= i < |xs[..n]| && key(xs[..n][i]) == k;
          assert key(xs[i]) == k;
        }
      }
      forall i | 0 <= i < |xs|
        ensures key(xs[i]) in ByKey(xs, key)
      {
        if i < n {
          assert key(xs[..n][i]) in ByKey(xs[..n], key);
        }
      }
    }
  }

  /** With unique keys the table holds every entry. */
  lemma {:induction false} ByKeyHolds<T>(xs: seq<T>, key: T -> string, i: nat)
    requires UniqueKeys(xs, key) && i < |xs|
    ensures key(xs[i]) in ByKey(xs, key) && ByKey(xs, key)[key(xs[i])] == xs[i]
  {
    var n := |xs| - 1;
    if i < n {
      ByKeyHolds(xs[..n], key, i);
      assert key(xs[i]) != key(xs[n]);
    }
  }

  /** With unique keys the table does not depend on the order of the list. */
  lemma {:induction false} ByKeyIgnoresOrder<T>(xs: seq<T>, ys: seq<T>, key: T -> string)
    requires UniqueKeys(xs, key) && UniqueKeys(ys, key)
    requires forall x :: x in xs <==> x in ys
    ensures ByKey(xs, key) == ByKey(ys, key)
  {
    var a, b := ByKey(xs, key), ByKey(ys, key);
    ByKeyKeys(xs, key);
    ByKeyKeys(ys, key);
    forall k | k in a ensures k in b && a[k] == b[k] {
      assert a[k] in ys;
      var j :| 0 <= j < |ys| && ys[j] == a[k];
      ByKeyHolds(ys, key, j);
    }
    forall k | k in b ensures k in a {
      assert b[k] in xs;
      var j :| 0 <= j < |xs| && xs[j] == b[k];
      ByKeyHolds(xs, key, j);
    }
    assert a.Keys == b.Keys;
  }
}
