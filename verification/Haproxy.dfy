/** The HAProxy manager (internal/haproxy/manager.go): it rewrites the managed section of the
    configuration file, has it validated and reloaded, and restores the file if that fails. */
module Haproxy {
  import opened Model
  import opened Text
  import opened HostState
  import opened MarkedText
  import opened HaproxyText
  import opened HaproxyBlock
  import opened HaproxyRead
  import R = Reconcile

  type Files = map<string, string>

  /** A file's text; a missing file reads as empty. */
  function Content(files: Files, path: string): (r: string) {
    if path in files then files[path] else ""
  }

  /** The field checks of internal/validate that are not spelled out here. */
  datatype RouteChecks = RouteChecks(listen: string -> bool, hostname: string -> bool)

  function Defaults(ms: seq<SniMatch>): (r: nat) {
    if ms == [] then 0 else Defaults(ms[1..]) + (if ms[0].isDefault then 1 else 0)
  }

  predicate ValidMatch(m: SniMatch, checks: RouteChecks) {
    && (m.backend != "" || m.backendId != "")
    && (m.isDefault || (m.host != "" && checks.hostname(m.host)))
  }

  /** A listen address, and matches of which exactly one is the default. */
  predicate ValidRoute(r: SniRoute, checks: RouteChecks) {
    && checks.listen(r.listen)
    && r.matches != [] && (forall m | m in r.matches :: ValidMatch(m, checks))
    && Defaults(r.matches) == 1
  }

  /** The text binds an address that a route wants; letters count without case. */
  predicate PortBoundElsewhere(unmanaged: string, routes: seq<SniRoute>) {
    exists r | r in routes :: r.listen != "" && Contains(ToLower(unmanaged), "bind " + ToLower(r.listen))
  }

  datatype Discovery = Discovery(digest: string, routes: seq<SniRoute>, conflicts: seq<Conflict>)

  /** What discovery makes of the file; None where reading the managed section crashes. */
  function Seen(body: Option<string>, path: string, desired: seq<SniRoute>): (r: Option<Discovery>) {
    if body.None? then Some(Discovery("", [], [])) else SeenIn(SplitManaged(body.value), path, desired)
  }

  function SeenIn(s: Sections, path: string, desired: seq<SniRoute>): (r: Option<Discovery>) {
    if !s.Sections? then Some(Discovery("", [], [Conflict("HAPROXY_MARKERS", path)]))
    else
      var routes := Parsed(s.managed);
      if routes.None? then None
      else
        var digest := ParseDigestComment(s.managed);
        Some(Discovery(if digest == "" && s.managed != "" then R.Digest(routes.value) else digest, routes.value,
                       if PortBoundElsewhere(s.unmanaged, desired) then [Conflict("HAPROXY_BIND_COLLISION", path)]
                           else []))
  }

  /** Reading the file crashes: its managed section has a line that is the word `frontend` alone. */
  predicate Unreadable(body: Option<string>) {
    body.Some? && SplitManaged(body.value).Sections? && Crashes(SplitManaged(body.value).managed)
  }

  lemma SeeingFailsIff(body: Option<string>, path: string, desired: seq<SniRoute>)
    ensures Seen(body, path, desired).None? <==> Unreadable(body)
  {
    if body.Some? && SplitManaged(body.value).Sections? {
      ParsingFailsIff(SplitManaged(body.value).managed);
    }
  }

  function FileAt(files: Files, path: string): (r: Option<string>) {
    if path in files then Some(files[path]) else None
  }

  /** What Apply demands of the routes and of the file. */
  predicate Appliable(body: string, routes: seq<SniRoute>, backends: seq<Backend>, checks: RouteChecks) {
    && (forall r | r in routes :: ValidRoute(r, checks))
    && SplitManaged(body).Sections?
    && !PortBoundElsewhere(SplitManaged(body).unmanaged, routes)
    && Rendered(routes, backends).Some?
  }

  /** How Apply ended: refused before the file was touched, or done, or the file was put
      back, or putting it back failed as well. */
  datatype Outcome = Refused | Applied | PutBack | Stuck

  class HaproxyManager {
    const host: Host
    const path: string
    const external: bool
    const checks: RouteChecks
    var lastBackup: string

    constructor (host: Host, path: string, external: bool, checks: RouteChecks)
      ensures this.host == host && this.path == path && this.external == external && this.checks == checks
      ensures lastBackup == ""
    {
      this.host, this.path, this.external, this.checks, lastBackup := host, path, external, checks, "";
    }

    method Discover(desired: seq<SniRoute>) returns (ok: bool, found: Discovery)
      modifies host`calls
      ensures host.calls >= old(host.calls)
      ensures ok ==> Seen(FileAt(host.files, path), path, desired) == Some(found)
      ensures FaultFree(host.faults) && Seen(FileAt(host.files, path), path, desired).Some? ==> ok
      ensures Unreadable(FileAt(host.files, path)) ==> !ok
      ensures FaultFree(host.faults) ==> (ok <==> !Unreadable(FileAt(host.files, path)))
    {
      SeeingFailsIff(FileAt(host.files, path), path, desired);
      found := Discovery("", [], []);
      var status, body := host.ReadFile(path);
      if status.Failed? {
        ok := status.why.Missing?;
        return;
      }
      var s := SplitManaged(body);
      if !s.Sections? {
        return true, Discovery("", [], [Conflict("HAPROXY_MARKERS", path)]);
      }
      var conflicts := [];
      if PortBoundElsewhere(s.unmanaged, desired) {
        conflicts := [Conflict("HAPROXY_BIND_COLLISION", path)];
      }
      var routes := ParseManaged(s.managed);
      if routes.None? {
        return false, found;
      }
      var digest := ParseDigestComment(s.managed);
      if digest == "" && s.managed != "" {
        digest := R.SniDigest(routes.value);
      }
      ok, found := true, Discovery(digest, routes.value, conflicts);
    }

    method ReadOrEmpty() returns (ok: bool, body: string)
      modifies host`calls
      ensures host.calls >= old(host.calls)
      ensures ok ==> body == Content(host.files, path)
      ensures FaultFree(host.faults) ==> ok
    {
      var status;
      status, body := host.ReadFile(path);
      ok := status.Done? || status.why.Missing?;
    }

    method RestoreFile(body: string) returns (ok: bool)
      modifies host`calls, host`files
      ensures host.calls >= old(host.calls)
      ensures forall p | p != path :: FileAt(host.files, p) == FileAt(old(host.files), p)
      ensures Content(host.files, path) == if ok then body else Content(old(host.files), path)
      ensures !ok ==> host.files == old(host.files)
      ensures ok ==> FileAt(host.files, path) == if body == "" then None else Some(body)
      ensures FaultFree(host.faults) ==> ok
    {
      if body == "" {
        var gone := host.RemoveFile(path);
        ok := gone.Done? || gone.why.Missing?;
      } else {
        var written := host.WriteFile(path, body);
        ok := written.Done?;
      }
    }

    method Reload() returns (ok: bool)
      modifies host`calls
      ensures host.calls >= old(host.calls)
      ensures FaultFree(host.faults) ==> ok
    {
      if external {
        return true;
      }
      var status := host.Reload();
      ok := status.Done?;
    }

    /** The text that is to be written, or None if Apply is refused. */
    method Prepare(routes: seq<SniRoute>, backends: seq<Backend>) returns (current: string, next: Option<string>)
      modifies host`calls
      ensures host.calls >= old(host.calls)
      ensures next.Some? ==> current == Content(host.files, path) && Appliable(current, routes, backends, checks)
                             && next.value == JoinConfig(SplitManaged(current).unmanaged,
                                                         Rendered(routes, backends).value)
      ensures FaultFree(host.faults) && Appliable(Content(host.files, path), routes, backends, checks) ==> next.Some?
    {
      current := "";
      for i := 0 to |routes|
        invariant host.calls == old(host.calls)
        invariant forall r | r in routes[..i] :: ValidRoute(r, checks)
      {
        if !ValidRoute(routes[i], checks) {
          return "", None;
        }
        assert routes[..i + 1] == routes[..i] + [routes[i]];
      }
      assert routes[..|routes|] == routes;
      var ok;
      ok, current := ReadOrEmpty();
      if !ok {
        return "", None;
      }
      var s := SplitManaged(current);
      if !s.Sections? || PortBoundElsewhere(s.unmanaged, routes) {
        return current, None;
      }
      var rendered := Render(routes, backends);
      if rendered.None? {
        return current, None;
      }
      next := Some(JoinConfig(s.unmanaged, rendered.value));
    }

    /** Writes the block for the routes. Either the file then is the user's text and the
        block, or it is as it was: refused, or put back after validation or reload failed.
        `own` says whether this call has made a backup. */
    method Apply(routes: seq<SniRoute>, backends: seq<Backend>, backup: string) returns (o: Outcome, ghost own: bool)
      requires backup != path && backup != ""
      modifies host`calls, host`files, this`lastBackup
      ensures host.calls >= old(host.calls)
      ensures forall p | p != path && p != backup :: FileAt(host.files, p) == FileAt(old(host.files), p)
      ensures o.Applied? ==> Appliable(Content(old(host.files), path), routes, backends, checks)
                             && FileAt(host.files, path)
                                == Some(JoinConfig(SplitManaged(Content(old(host.files), path)).unmanaged,
                                                   Rendered(routes, backends).value))
      ensures o.Refused? || o.PutBack? ==> Content(host.files, path) == Content(old(host.files), path)
      ensures o.Refused? ==> FileAt(host.files, path) == FileAt(old(host.files), path)
      ensures if own then lastBackup == backup && FileAt(host.files, backup) == Some(Content(old(host.files), path))
              else o.Refused? && lastBackup == old(lastBackup) && host.files == old(host.files)
      ensures !Appliable(Content(old(host.files), path), routes, backends, checks) ==> !own
      ensures FaultFree(host.faults) ==>
                o == if Appliable(Content(old(host.files), path), routes, backends, checks) then Applied else Refused
    {
      var current, next := Prepare(routes, backends);
      if next.None? {
        return Refused, false;
      }
      var copied := host.WriteFile(backup, current);
      if copied.Failed? {
        return Refused, false;
      }
      lastBackup, own := backup, true;
      var written := host.WriteFile(path, next.value);
      if written.Failed? {
        return Refused, own;
      }
      o := Activate(current);
    }

    /** Has the new text validated and loaded, or puts the former one back. */
    method Activate(current: string) returns (o: Outcome)
      modifies host`calls, host`files
      ensures host.calls >= old(host.calls)
      ensures forall p | p != path :: FileAt(host.files, p) == FileAt(old(host.files), p)
      ensures o.Applied? || o.PutBack? || o.Stuck?
      ensures o.Applied? ==> host.files == old(host.files)
      ensures o.PutBack? ==> Content(host.files, path) == current
      ensures FaultFree(host.faults) ==> o.Applied?
    {
      var valid := host.HaproxyCheck();
      if valid.Failed? {
        var restored := RestoreFile(current);
        return if restored then PutBack else Stuck;
      }
      var reloaded := Reload();
      if !reloaded {
        var restored := RestoreFile(current);
        var _ := Reload();
        return if restored then PutBack else Stuck;
      }
      return Applied;
    }

    /** Puts the last backup back, if there is one. */
    method Rollback() returns (ok: bool)
      modifies host`calls, host`files
      ensures host.calls >= old(host.calls)
      ensures forall p | p != path :: FileAt(host.files, p) == FileAt(old(host.files), p)
      ensures lastBackup == "" ==> ok && host.files == old(host.files)
      ensures ok && lastBackup != "" ==> FileAt(old(host.files), lastBackup) == Some(Content(host.files, path))
      ensures Content(host.files, path) == Content(old(host.files), path)
              || FileAt(old(host.files), lastBackup) == Some(Content(host.files, path))
      ensures FaultFree(host.faults) && (lastBackup == "" || lastBackup in old(host.files)) ==> ok
    {
      if lastBackup == "" {
        return true;
      }
      var status, body := host.ReadFile(lastBackup);
      if status.Failed? {
        return false;
      }
      ok := RestoreFile(body);
      if !ok {
        return;
      }
      ok := Reload();
    }
  }

  // --------------------------------------------------- discovery after Apply

  lemma LowerConcat(a: string, b: string)
    ensures ToLower(a + b) == ToLower(a) + ToLower(b)
  {
  }

  /** A bind line of the trimmed text is one of the text. */
  lemma BoundAfterTrim(u: string, routes: seq<SniRoute>)
    requires !PortBoundElsewhere(u, routes)
    ensures !PortBoundElsewhere(Trim(u), routes)
  {
    var left, right := TrimShape(u);
    LowerConcat(left + Trim(u), right);
    LowerConcat(left, Trim(u));
    forall r | r in routes && r.listen != ""
      ensures !Contains(ToLower(Trim(u)), "bind " + ToLower(r.listen))
    {
      var pat := "bind " + ToLower(r.listen);
      ContainsInside(ToLower(left), ToLower(Trim(u)), ToLower(right), pat);
    }
  }

  lemma ContainsInside(left: string, mid: string, right: string, pat: string)
    ensures Contains(mid, pat) ==> Contains(left + mid + right, pat)
  {
    ContainsIffAt(mid, pat);
    ContainsIffAt(left + mid + right, pat);
    if j :| At(mid, pat, j) {
      assert (left + mid + right)[|left| + j..|left| + j + |pat|] == mid[j..j + |pat|];
      assert At(left + mid + right, pat, |left| + j);
    }
  }

  lemma BlockIsSeen(u: string, block: string, path: string, routes: seq<SniRoute>, read: seq<SniRoute>)
    requires ManagedBlock(block) && Free(u, BEGIN, END) && !PortBoundElsewhere(u, routes)
    requires ParseDigestComment(block[..|block| - 1]) == R.Digest(routes) && R.Digest(routes) != ""
    requires Parsed(block[..|block| - 1]) == Some(read)
    ensures Seen(Some(JoinConfig(u, block)), path, routes) == Some(Discovery(R.Digest(routes), read, []))
  {
    ReadBackIffFree(u, block);
    BoundAfterTrim(u, routes);
  }

  lemma NothingIsSeen(u: string, path: string)
    requires Unmarked(u)
    ensures Seen(Some(JoinConfig(u, "")), path, []) == Some(Discovery("", [], []))
  {
    ReadBackNothing(u);
    assert Split("", '\n') == [""] && Trim("") == "" && [""][1..] == [];
    assert ParseDigestComment("") == "";
  }

  lemma RenderedIsReadBack(block: string, routes: seq<SniRoute>, backends: seq<Backend>, read: seq<SniRoute>)
    requires Rendered(routes, backends) == Some(block) && routes != []
    requires TameConfig(routes, backends) && forall r | r in routes :: Complete(r)
    requires read == ReadRoutes(PRINTER, routes, Head)
    ensures ManagedBlock(block)
    ensures ParseDigestComment(block[..|block| - 1]) == R.Digest(routes) && R.Digest(routes) != ""
    ensures Parsed(block[..|block| - 1]) == Some(read)
  {
    assert ManagedBlock(block) by {
      RenderedIsBlock(routes, backends);
    }
    assert ParseDigestComment(block[..|block| - 1]) == R.Digest(routes) && R.Digest(routes) != "" by {
      DigestIsReadBack(routes, backends, block);
    }
    RoutesAreReadBack(routes, backends, block);
  }

  /** What is read of text followed by the block for some routes. */
  lemma RenderedIsSeen(u: string, block: string, path: string, routes: seq<SniRoute>, backends: seq<Backend>)
    requires Rendered(routes, backends) == Some(block) && routes != []
    requires Free(u, BEGIN, END) && !PortBoundElsewhere(u, routes)
    requires TameConfig(routes, backends) && forall r | r in routes :: Complete(r)
    ensures Seen(Some(JoinConfig(u, block)), path, routes)
            == Some(Discovery(R.Digest(routes), ReadRoutes(PRINTER, routes, Head), []))
  {
    var read := ReadRoutes(PRINTER, routes, Head);
    RenderedIsReadBack(block, routes, backends, read);
    BlockIsSeen(u, block, path, routes, read);
  }

  /** After a successful Apply, discovery reports the digest of the routes, or no section when
      there are none, and no conflict. */
  lemma AppliedIsSeen(body: string, path: string, routes: seq<SniRoute>, backends: seq<Backend>, checks: RouteChecks)
    requires Appliable(body, routes, backends, checks) && Unmarked(SplitManaged(body).unmanaged)
    requires TameConfig(routes, backends) && forall r | r in routes :: Complete(r)
    ensures Seen(Some(JoinConfig(SplitManaged(body).unmanaged, Rendered(routes, backends).value)), path, routes)
            == Some(Discovery(if routes == [] then "" else R.Digest(routes), ReadRoutes(PRINTER, routes, Head), []))
  {
    if routes == [] {
      NothingIsSeen(SplitManaged(body).unmanaged, path);
    } else {
      RenderedIsSeen(SplitManaged(body).unmanaged, Rendered(routes, backends).value, path, routes, backends);
    }
  }

  /** The user's text is still there after a successful Apply, and can be told from the block. */
  lemma AppliedKeepsText(body: string, routes: seq<SniRoute>, backends: seq<Backend>, checks: RouteChecks)
    requires Appliable(body, routes, backends, checks) && Unmarked(SplitManaged(body).unmanaged)
             && TameConfig(routes, backends)
    ensures var next := JoinConfig(SplitManaged(body).unmanaged, Rendered(routes, backends).value);
            && SplitManaged(next).Sections? && Unmarked(SplitManaged(next).unmanaged)
            && Trim(SplitManaged(next).unmanaged) == Trim(SplitManaged(body).unmanaged)
  {
    var u, block := SplitManaged(body).unmanaged, Rendered(routes, backends).value;
    RenderedIsBlock(routes, backends);
    UnmarkedText(u);
    TrimIsIdempotent(u);
    if routes == [] {
      ReadBackNothing(u);
    } else {
      ReadBackIffFree(u, block);
    }
  }
}
