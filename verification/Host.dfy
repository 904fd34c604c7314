/** The node the agent works on, as internal/testhost/host.go simulates it: packet-filter
    tables, network links, systemd units and files, changed in place one command at a time.
    Which commands fail is an arbitrary oracle, asked once per command. */
module HostState {
  import opened Model
  import opened Text
  import opened Tables

  datatype Failure = Injected | Missing | Exists | NoMatch | Unsupported | Inactive

  datatype Status = Done | Failed(why: Failure)

  datatype Link = Link(
    kind: string,
    up: bool,
    addrs: seq<string>,
    listen: int,
    privateKeyPath: string,
    peerKey: string,
    peerEndpoint: string,
    peerAllowed: string,
    peerKeepalive: int)

  type Links = map<string, Link>

  const WIREGUARD := "wireguard"

  ghost predicate FaultFree(faults: nat -> bool) {
    forall n :: !faults(n)
  }

  /** No command failed between two counts. */
  ghost predicate QuietBetween(faults: nat -> bool, from: nat, to: nat) {
    forall n | from <= n < to :: !faults(n)
  }

  /** What is noted of the commands about tables: that the tables were to be saved,
      that a rule was appended to a chain or deleted from it, that saved tables were put in
      place, and that a rollback has begun. */
  datatype Event = SaveTried | RuleAdded(view: View) | RuleGone(view: View) | TablesPutBack | RollbackBegun

  type Log = seq<Event>

  class Host {
    const faults: nat -> bool
    var calls: nat
    /** The commands about tables so far; a rule that was not changed is not in it. */
    ghost var log: Log
    var tables: Chains
    var links: Links
    var active: set<string>
    var files: map<string, string>

    constructor (faults: nat -> bool, tables: Chains, links: Links, active: set<string>, files: map<string, string>)
      ensures this.faults == faults && calls == 0 && log == []
      ensures this.tables == tables && this.links == links && this.active == active && this.files == files
    {
      this.faults, this.calls, this.log := faults, 0, [];
      this.tables, this.links, this.active, this.files := tables, links, active, files;
    }

    /** Asks the oracle about the next command. */
    method Fails() returns (fails: bool)
      modifies this`calls
      ensures fails == faults(old(calls)) && calls == old(calls) + 1
    {
      fails := faults(calls);
      calls := calls + 1;
    }

    // ------------------------------------------------------------- iptables

    method NewChain(v: View) returns (s: Status)
      modifies this`calls, this`tables
      ensures calls == old(calls) + 1
      ensures s == if faults(old(calls)) then Failed(Injected) else if v in old(tables) then Failed(Exists) else Done
      ensures tables == if s.Done? then old(tables)[v := []] else old(tables)
    {
      var fails := Fails();
      if fails {
        return Failed(Injected);
      }
      if v in tables {
        return Failed(Exists);
      }
      tables := tables[v := []];
      return Done;
    }

    /** The rules of a chain, one line each after the line that names it. */
    method ListChain(v: View) returns (s: Status, lines: seq<string>)
      modifies this`calls
      ensures calls == old(calls) + 1
      ensures s == if faults(old(calls)) then Failed(Injected) else if v !in tables then Failed(Missing) else Done
      ensures s.Done? ==> lines == ["-N " + v.chain] + RuleLines(v.chain, tables[v])
    {
      lines := [];
      var fails := Fails();
      if fails {
        return Failed(Injected), [];
      }
      if v !in tables {
        return Failed(Missing), [];
      }
      lines := ["-N " + v.chain];
      for i := 0 to |tables[v]|
        invariant lines == ["-N " + v.chain] + RuleLines(v.chain, tables[v][..i])
      {
        lines := lines + [RuleLine(v.chain, tables[v][i])];
        assert tables[v][..i + 1][..i] == tables[v][..i];
      }
      assert tables[v][..|tables[v]|] == tables[v];
      s := Done;
    }

    method AppendRule(v: View, args: seq<string>) returns (s: Status)
      modifies this`calls, this`tables, this`log
      ensures log == if s.Done? then old(log) + [RuleAdded(v)] else old(log)
      ensures calls == old(calls) + 1
      ensures s == if faults(old(calls)) then Failed(Injected) else if v !in old(tables) then Failed(Missing) else Done
      ensures tables == if s.Done? then old(tables)[v := old(tables)[v] + [Join(args)]] else old(tables)
    {
      var fails := Fails();
      if fails {
        return Failed(Injected);
      }
      if v !in tables {
        return Failed(Missing);
      }
      tables, log := tables[v := tables[v] + [Join(args)]], log + [RuleAdded(v)];
      return Done;
    }

    method DeleteRule(v: View, args: seq<string>) returns (s: Status)
      modifies this`calls, this`tables, this`log
      ensures log == if s.Done? then old(log) + [RuleGone(v)] else old(log)
      ensures calls == old(calls) + 1
      ensures s == if faults(old(calls)) then Failed(Injected)
                   else if Join(args) !in RulesOf(old(tables), v) then Failed(NoMatch) else Done
      ensures s.Done? ==> v in old(tables)
      ensures tables == if s.Done? then old(tables)[v := RemoveFirst(old(tables)[v], Join(args))] else old(tables)
    {
      var fails := Fails();
      if fails {
        return Failed(Injected);
      }
      if Join(args) !in RulesOf(tables, v) {
        return Failed(NoMatch);
      }
      tables, log := tables[v := RemoveFirst(tables[v], Join(args))], log + [RuleGone(v)];
      return Done;
    }

    method CheckRule(v: View, args: seq<string>) returns (s: Status)
      modifies this`calls
      ensures calls == old(calls) + 1
      ensures s == if faults(old(calls)) then Failed(Injected)
                   else if Join(args) in RulesOf(tables, v) then Done else Failed(NoMatch)
    {
      var fails := Fails();
      if fails {
        return Failed(Injected);
      }
      return if Join(args) in RulesOf(tables, v) then Done else Failed(NoMatch);
    }

    /** -F and -X: the simulated host knows neither. */
    method UnsupportedRuleCommand() returns (s: Status)
      modifies this`calls
      ensures calls == old(calls) + 1 && s.Failed?
    {
      var fails := Fails();
      return Failed(if fails then Injected else Unsupported);
    }

    method Save() returns (s: Status, text: string)
      modifies this`calls, this`log
      ensures log == old(log) + [SaveTried]
      ensures calls == old(calls) + 1
      ensures s == if faults(old(calls)) then Failed(Injected) else Done
      ensures s.Done? ==> SavedAs(tables, text)
    {
      text, log := "", log + [SaveTried];
      var fails := Fails();
      if fails {
        return Failed(Injected), "";
      }
      var natOrder, natLines := SaveTable(Nat);
      var filterOrder, filterLines := SaveTable(Filter);
      text := Unlines(["*nat"] + natLines + ["COMMIT", "*filter"] + filterLines + ["COMMIT"]);
      assert text == Unlines(SavedLines(tables, natOrder, filterOrder));
      s := Done;
    }

    /** The lines of one table's chains, in the order a map happens to be walked. */
    method SaveTable(table: Table) returns (ghost order: seq<View>, lines: seq<string>)
      ensures Lists(order, tables, table)
      ensures lines == Section(tables, order)
    {
      var rest := set v | v in tables && v.table == table;
      order, lines := [], [];
      while rest != {}
        invariant forall v :: v in tables && v.table == table <==> v in rest || v in order
        invariant forall v | v in order :: v !in rest
        invariant forall i, j | 0 <= i < j < |order| :: order[i] != order[j]
        invariant lines == Section(tables, order)
        decreases rest
      {
        var v :| v in rest;
        assert (order + [v])[..|order|] == order;
        lines := lines + ChainLines(v, tables[v]);
        order, rest := order + [v], rest - {v};
      }
    }

    method Restore(text: string) returns (s: Status)
      modifies this`calls, this`tables, this`log
      ensures log == if s.Done? then old(log) + [TablesPutBack] else old(log)
      ensures calls == old(calls) + 1
      ensures s == if faults(old(calls)) then Failed(Injected) else Done
      ensures tables == if s.Done? then Restored(text) else old(tables)
    {
      var fails := Fails();
      if fails {
        return Failed(Injected);
      }
      var r := Restoring(None, map[]);
      var entries := ClassifyAll(Split(text, '\n'));
      for i := 0 to |entries|
        invariant r == RestoreEntries(Restoring(None, map[]), entries[..i])
      {
        r := RestoreEntry(r, entries[i]);
        assert entries[..i + 1][..i] == entries[..i];
      }
      assert entries[..|entries|] == entries;
      tables, log := r.chains, log + [TablesPutBack];
      return Done;
    }

    /** Notes that what follows is a rollback. */
    ghost method NoteRollback()
      modifies this`log
      ensures log == old(log) + [RollbackBegun]
    {
      log := log + [RollbackBegun];
    }

    // -------------------------------------------------------------- ip and wg

    method LinkShow(name: string) returns (s: Status)
      modifies this`calls
      ensures calls == old(calls) + 1
      ensures s == if faults(old(calls)) then Failed(Injected) else if name in links then Done else Failed(Missing)
    {
      var fails := Fails();
      return if fails then Failed(Injected) else if name in links then Done else Failed(Missing);
    }

    method LinkAdd(name: string, kind: string) returns (s: Status)
      modifies this`calls, this`links
      ensures calls == old(calls) + 1
      ensures s == if faults(old(calls)) then Failed(Injected) else if name in old(links) then Failed(Exists) else Done
      ensures links == if s.Done? then old(links)[name := Link(kind, false, [], 0, "", "", "", "", 0)] else old(links)
    {
      var fails := Fails();
      if fails {
        return Failed(Injected);
      }
      if name in links {
        return Failed(Exists);
      }
      links := links[name := Link(kind, false, [], 0, "", "", "", "", 0)];
      return Done;
    }

    method LinkDelete(name: string) returns (s: Status)
      modifies this`calls, this`links
      ensures calls == old(calls) + 1
      ensures s == if faults(old(calls)) then Failed(Injected) else if name in old(links) then Done else Failed(Missing)
      ensures links == if s.Done? then old(links) - {name} else old(links)
    {
      var fails := Fails();
      if fails {
        return Failed(Injected);
      }
      if name !in links {
        return Failed(Missing);
      }
      links := links - {name};
      return Done;
    }

    method LinkUp(name: string) returns (s: Status)
      modifies this`calls, this`links
      ensures calls == old(calls) + 1
      ensures s == if faults(old(calls)) then Failed(Injected) else if name in old(links) then Done else Failed(Missing)
      ensures links == if s.Done? then old(links)[name := old(links)[name].(up := true)] else old(links)
    {
      var fails := Fails();
      if fails {
        return Failed(Injected);
      }
      if name !in links {
        return Failed(Missing);
      }
      links := links[name := links[name].(up := true)];
      return Done;
    }

    method AddrShow(name: string) returns (s: Status, addrs: seq<string>)
      modifies this`calls
      ensures calls == old(calls) + 1
      ensures s == if faults(old(calls)) then Failed(Injected) else if name in links then Done else Failed(Missing)
      ensures addrs == if s.Done? then links[name].addrs else []
    {
      var fails := Fails();
      if fails {
        return Failed(Injected), [];
      }
      if name !in links {
        return Failed(Missing), [];
      }
      return Done, links[name].addrs;
    }

    /** Replacing an address leaves that address alone on the link. */
    method AddrReplace(name: string, cidr: string) returns (s: Status)
      modifies this`calls, this`links
      ensures calls == old(calls) + 1
      ensures s == if faults(old(calls)) then Failed(Injected) else if name in old(links) then Done else Failed(Missing)
      ensures links == if s.Done? then old(links)[name := old(links)[name].(addrs := [cidr])] else old(links)
    {
      var fails := Fails();
      if fails {
        return Failed(Injected);
      }
      if name !in links {
        return Failed(Missing);
      }
      links := links[name := links[name].(addrs := [cidr])];
      return Done;
    }

    /** The listen port of a WireGuard link. */
    method WgDump(name: string) returns (s: Status, listen: int)
      modifies this`calls
      ensures calls == old(calls) + 1
      ensures s == if faults(old(calls)) then Failed(Injected)
                   else if name in links && links[name].kind == WIREGUARD then Done else Failed(Missing)
      ensures listen == if s.Done? then links[name].listen else 0
    {
      var fails := Fails();
      if fails {
        return Failed(Injected), 0;
      }
      if name !in links || links[name].kind != WIREGUARD {
        return Failed(Missing), 0;
      }
      return Done, links[name].listen;
    }

    method WgSetDevice(name: string, listen: int, privateKeyPath: string) returns (s: Status)
      modifies this`calls, this`links
      ensures calls == old(calls) + 1
      ensures s == if faults(old(calls)) then Failed(Injected) else if name in old(links) then Done else Failed(Missing)
      ensures links == if s.Done? then old(links)[name :=
                                                  old(links)[name].(listen := listen, privateKeyPath := privateKeyPath)]
                       else old(links)
    {
      var fails := Fails();
      if fails {
        return Failed(Injected);
      }
      if name !in links {
        return Failed(Missing);
      }
      links := links[name := links[name].(listen := listen, privateKeyPath := privateKeyPath)];
      return Done;
    }

    /** Peer settings that are not given stay as they are. */
    method WgSetPeer(name: string, key: string, allowed: Option<string>, endpoint: Option<string>,
                     keepalive: Option<int>)
      returns (s: Status)
      modifies this`calls, this`links
      ensures calls == old(calls) + 1
      ensures s == if faults(old(calls)) then Failed(Injected) else if name in old(links) then Done else Failed(Missing)
      ensures links == if s.Done? then old(links)[name := WithPeer(old(links)[name], key, allowed, endpoint, keepalive)]
                       else old(links)
    {
      var fails := Fails();
      if fails {
        return Failed(Injected);
      }
      if name !in links {
        return Failed(Missing);
      }
      var l := links[name].(peerKey := key);
      if allowed.Some? {
        l := l.(peerAllowed := allowed.value);
      }
      if endpoint.Some? {
        l := l.(peerEndpoint := endpoint.value);
      }
      if keepalive.Some? {
        l := l.(peerKeepalive := keepalive.value);
      }
      links := links[name := l];
      return Done;
    }

    // ------------------------------------------------- haproxy and systemctl

    method HaproxyCheck() returns (s: Status)
      modifies this`calls
      ensures calls == old(calls) + 1
      ensures s == if faults(old(calls)) then Failed(Injected) else Done
    {
      var fails := Fails();
      return if fails then Failed(Injected) else Done;
    }

    method Reload() returns (s: Status)
      modifies this`calls
      ensures calls == old(calls) + 1
      ensures s == if faults(old(calls)) then Failed(Injected) else Done
    {
      var fails := Fails();
      return if fails then Failed(Injected) else Done;
    }

    method IsActive(unit: string) returns (s: Status)
      modifies this`calls
      ensures calls == old(calls) + 1
      ensures s == if faults(old(calls)) then Failed(Injected) else if unit in active then Done else Failed(Inactive)
    {
      var fails := Fails();
      return if fails then Failed(Injected) else if unit in active then Done else Failed(Inactive);
    }

    method StartUnit(unit: string) returns (s: Status)
      modifies this`calls, this`active
      ensures calls == old(calls) + 1
      ensures s == if faults(old(calls)) then Failed(Injected) else Done
      ensures active == if s.Done? then old(active) + {unit} else old(active)
    {
      var fails := Fails();
      if fails {
        return Failed(Injected);
      }
      active := active + {unit};
      return Done;
    }

    // ------------------------------------------------------------------ files

    method ReadFile(path: string) returns (s: Status, body: string)
      modifies this`calls
      ensures calls == old(calls) + 1
      ensures s == if faults(old(calls)) then Failed(Injected) else if path in files then Done else Failed(Missing)
      ensures body == if s.Done? then files[path] else ""
    {
      var fails := Fails();
      if fails {
        return Failed(Injected), "";
      }
      if path !in files {
        return Failed(Missing), "";
      }
      return Done, files[path];
    }

    /** A write through a temporary file and a rename: all or nothing. */
    method WriteFile(path: string, body: string) returns (s: Status)
      modifies this`calls, this`files
      ensures calls == old(calls) + 1
      ensures s == if faults(old(calls)) then Failed(Injected) else Done
      ensures files == if s.Done? then old(files)[path := body] else old(files)
    {
      var fails := Fails();
      if fails {
        return Failed(Injected);
      }
      files := files[path := body];
      return Done;
    }

    method RemoveFile(path: string) returns (s: Status)
      modifies this`calls, this`files
      ensures calls == old(calls) + 1
      ensures s == if faults(old(calls)) then Failed(Injected) else if path in old(files) then Done else Failed(Missing)
      ensures files == if s.Done? then old(files) - {path} else old(files)
    {
      var fails := Fails();
      if fails {
        return Failed(Injected);
      }
      if path !in files {
        return Failed(Missing);
      }
      files := files - {path};
      return Done;
    }
  }

  function WithPeer(l: Link, key: string, allowed: Option<string>, endpoint: Option<string>,
                    keepalive: Option<int>): (r: Link) {
    l.(peerKey := key,
       peerAllowed := if allowed.Some? then allowed.value else l.peerAllowed,
       peerEndpoint := if endpoint.Some? then endpoint.value else l.peerEndpoint,
       peerKeepalive := if keepalive.Some? then keepalive.value else l.peerKeepalive)
  }
}
