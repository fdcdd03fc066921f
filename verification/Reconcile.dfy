/**
 Reconciling a compute host: what Nova holds, what libvirt runs, what lies on disk. Cleanup
 never touches a live instance, and when it reports success it converges, bar one case.
 */
module Reconcile {
  import opened Basics
  import opened Text

  datatype Server = Server(name: string, status: string, vmState: string)

  const NO_DOMAIN_EXPECTED := {"shelved", "shelved_offloaded", "deleted", "error", "building"}

  /** Instances Nova associates with the host, deleted ones included, by UUID. */
  type Instances = map<string, Server>

  predicate IsDeleted(s: Server) {
    Upper(s.status) == "DELETED"
  }

  /** Nova holds the instance, and not as deleted. */
  predicate Live(nova: Instances, uuid: string) {
    uuid in nova && !IsDeleted(nova[uuid])
  }

  /** A libvirt domain; a transient one exists only while it runs. */
  datatype Domain = Domain(uuid: string, running: bool, persistent: bool)

  datatype Host = Host(domains: map<string, Domain>, dirs: set<string>)

  /** libvirt keeps UUIDs unique. */
  ghost predicate UuidsUnique(h: Host) {
    forall d, e :: d in h.domains && e in h.domains && h.domains[d].uuid == h.domains[e].uuid ==> d == e
  }

  function Dashes(s: string): nat {
    if s == "" then 0 else (if s[0] == '-' then 1 else 0) + Dashes(s[1..])
  }

  predicate UuidShaped(s: string) {
    |s| == 36 && Dashes(s) == 4
  }

  lemma {:induction false} DashesCounted(s: string)
    ensures Dashes(s) == multiset(s)['-']
  {
    if s != "" {
      DashesCounted(s[1..]);
      assert s == [s[0]] + s[1..];
    }
  }

  /** In any case of its letters. */
  lemma DeletedIff(s: Server)
    ensures IsDeleted(s) <==> Lower(s.status) == "deleted"
  {
    FoldingsAgree(s.status, "deleted");
    assert Upper("deleted") == "DELETED" && Lower("deleted") == "deleted";
  }

  /** Which reads over ssh succeed: the domain list, each domain's UUID, the directory list. */
  datatype Reads = Reads(domainList: bool, uuidOf: string -> bool, dirList: bool)

  // --------------------------------------------------------------- reconcile

  datatype Row =
    | OrphanDomain(uuid: string, domain: string)
    | MissingDomain(uuid: string)
    | StaleDir(dir: string)

  ghost predicate KnownUuid(h: Host, view: Reads, uuid: string) {
    exists d :: d in h.domains && view.uuidOf(d) && h.domains[d].uuid == uuid
  }

  ghost predicate IsOrphan(h: Host, nova: Instances, view: Reads, row: Row)
    requires row.OrphanDomain?
  {
    && row.domain in h.domains && h.domains[row.domain].uuid == row.uuid
    && view.uuidOf(row.domain) && row.uuid != ""
    && !Live(nova, row.uuid)
  }

  ghost predicate IsMissing(h: Host, nova: Instances, view: Reads, uuid: string) {
    && Live(nova, uuid) && Lower(nova[uuid].vmState) !in NO_DOMAIN_EXPECTED
    && (uuid == "" || !KnownUuid(h, view, uuid))
  }

  ghost predicate IsStale(h: Host, nova: Instances, view: Reads, dir: string) {
    view.dirList && dir in h.dirs && UuidShaped(dir) && !Live(nova, dir) && !KnownUuid(h, view, dir)
  }

  /** What the three passes report. */
  ghost predicate Reported(h: Host, nova: Instances, view: Reads, row: Row) {
    view.domainList &&
    match row
    case OrphanDomain(_, _) => IsOrphan(h, nova, view, row)
    case MissingDomain(uuid) => IsMissing(h, nova, view, uuid)
    case StaleDir(dir) => IsStale(h, nova, view, dir)
  }

  /** Active instances first; a deleted one is added only if its UUID is not there yet. */
  method NovaInstances(active: seq<(string, Server)>, deleted: seq<(string, Server)>) returns (nova: Instances)
    ensures forall u :: u in nova <==>
      (exists i :: 0 <= i < |active| && active[i].0 == u) || (exists i :: 0 <= i < |deleted| && deleted[i].0 == u)
    ensures forall u :: u in nova && (exists i :: 0 <= i < |active| && active[i].0 == u) ==> (u, nova[u]) in active
    ensures forall u :: u in nova && !(exists i :: 0 <= i < |active| && active[i].0 == u) ==> (u, nova[u]) in deleted
  {
    nova := map[];
    for k := 0 to |active|
      invariant forall u :: u in nova <==> exists i :: 0 <= i < k && active[i].0 == u
      invariant forall u :: u in nova ==> (u, nova[u]) in active
    {
      nova := nova[active[k].0 := active[k].1];
      assert active[k] == (active[k].0, active[k].1);
    }
    for k := 0 to |deleted|
      invariant forall u :: u in nova <==>
        (exists i :: 0 <= i < |active| && active[i].0 == u) || (exists i :: 0 <= i < k && deleted[i].0 == u)
      invariant forall u :: u in nova && (exists i :: 0 <= i < |active| && active[i].0 == u) ==> (u, nova[u]) in active
      invariant forall u :: u in nova && !(exists i :: 0 <= i < |active| && active[i].0 == u) ==>
        (u, nova[u]) in deleted
    {
      if deleted[k].0 !in nova {
        nova := nova[deleted[k].0 := deleted[k].1];
        assert deleted[k] == (deleted[k].0, deleted[k].1);
      }
    }
  }

  /** Reads back each domain's UUID; one that cannot be read is left out. */
  method DomainUuids(h: Host, view: Reads) returns (uuids: map<string, string>)
    requires UuidsUnique(h)
    ensures forall u :: u in uuids <==> u != "" && KnownUuid(h, view, u)
    ensures forall u :: u in uuids ==> uuids[u] in h.domains && h.domains[uuids[u]].uuid == u && view.uuidOf(uuids[u])
  {
    uuids := map[];
    var left := h.domains.Keys;
    while left != {}
      invariant left <= h.domains.Keys
      invariant forall u :: u in uuids ==>
        uuids[u] in h.domains && h.domains[uuids[u]].uuid == u && view.uuidOf(uuids[u]) && u != ""
      invariant forall d :: d in h.domains && d !in left && view.uuidOf(d) && h.domains[d].uuid != "" ==>
        h.domains[d].uuid in uuids
      decreases left
    {
      var d :| d in left;
      left := left - {d};
      var uuid := h.domains[d].uuid;
      if view.uuidOf(d) && uuid != "" {
        uuids := uuids[uuid := d];
      }
    }
  }

  /** Rows name each orphan once. */
  ghost predicate OrphansOnce(rows: seq<Row>) {
    forall i, j :: 0 <= i < j < |rows| && rows[i].OrphanDomain? && rows[j].OrphanDomain? ==>
      rows[i].domain != rows[j].domain
  }

  method Orphans(h: Host, nova: Instances, uuids: map<string, string>) returns (rows: seq<Row>)
    requires forall u :: u in uuids ==> uuids[u] in h.domains && h.domains[uuids[u]].uuid == u
    ensures OrphansOnce(rows)
    ensures forall row :: row in rows <==>
      row.OrphanDomain? && row.uuid in uuids && uuids[row.uuid] == row.domain && !Live(nova, row.uuid)
  {
    rows := [];
    var left := uuids.Keys;
    while left != {}
      invariant left <= uuids.Keys && OrphansOnce(rows)
      invariant forall row :: row in rows <==>
        && row.OrphanDomain? && row.uuid in uuids && row.uuid !in left
        && uuids[row.uuid] == row.domain && !Live(nova, row.uuid)
      decreases left
    {
      var uuid :| uuid in left;
      left := left - {uuid};
      if uuid !in nova {
        rows := rows + [OrphanDomain(uuid, uuids[uuid])];
      } else if IsDeleted(nova[uuid]) {
        rows := rows + [OrphanDomain(uuid, uuids[uuid])];
      }
    }
  }

  method Missings(nova: Instances, uuids: map<string, string>) returns (rows: seq<Row>)
    ensures forall row :: row in rows <==>
      row.MissingDomain? && Live(nova, row.uuid) && Lower(nova[row.uuid].vmState) !in NO_DOMAIN_EXPECTED
        && row.uuid !in uuids
  {
    rows := [];
    var left := nova.Keys;
    while left != {}
      invariant left <= nova.Keys
      invariant forall row :: row in rows <==>
        && row.MissingDomain? && Live(nova, row.uuid) && row.uuid !in left
        && Lower(nova[row.uuid].vmState) !in NO_DOMAIN_EXPECTED && row.uuid !in uuids
      decreases left
    {
      var uuid :| uuid in left;
      left := left - {uuid};
      if IsDeleted(nova[uuid]) || Lower(nova[uuid].vmState) in NO_DOMAIN_EXPECTED {
        continue;
      }
      if uuid !in uuids {
        rows := rows + [MissingDomain(uuid)];
      }
    }
  }

  method StaleDirs(h: Host, nova: Instances, view: Reads, uuids: map<string, string>) returns (rows: seq<Row>)
    ensures forall row :: row in rows <==>
      && row.StaleDir? && view.dirList && row.dir in h.dirs && UuidShaped(row.dir)
      && !Live(nova, row.dir) && row.dir !in uuids
  {
    rows := [];
    var left := if view.dirList then set d | d in h.dirs && UuidShaped(d) else {};
    ghost var all := left;
    while left != {}
      invariant left <= all
      invariant forall row :: row in rows <==>
        && row.StaleDir? && row.dir in all && row.dir !in left
        && !Live(nova, row.dir) && row.dir !in uuids
      decreases left
    {
      var dir :| dir in left;
      left := left - {dir};
      if dir in nova && !IsDeleted(nova[dir]) {
        continue;
      }
      if dir in uuids {
        continue;
      }
      rows := rows + [StaleDir(dir)];
    }
  }

  method Reconcile(h: Host, nova: Instances, view: Reads) returns (rows: seq<Row>)
    requires UuidsUnique(h)
    ensures forall row :: row in rows <==> Reported(h, nova, view, row)
    ensures OrphansOnce(rows)
  {
    if !view.domainList {
      return [];
    }
    var uuids := DomainUuids(h, view);
    var orphans := Orphans(h, nova, uuids);
    var missings := Missings(nova, uuids);
    var stale := StaleDirs(h, nova, view, uuids);
    rows := orphans + missings + stale;
    assert forall i :: |orphans| <= i < |rows| ==> rows[i] in missings || rows[i] in stale;
    forall row ensures row in rows <==> Reported(h, nova, view, row) {
      match row
      case OrphanDomain(uuid, domain) =>
        assert row in rows <==> row in orphans;
        if IsOrphan(h, nova, view, row) {
          assert KnownUuid(h, view, uuid);
          assert uuids[uuid] == domain;
        }
      case MissingDomain(uuid) => assert row in rows <==> row in missings;
      case StaleDir(dir) => assert row in rows <==> row in stale;
    }
  }

  // ------------------------------------------------------------------- clean

  /** Which commands on the host work when they have something to act on. */
  datatype Works = Works(destroy: string -> bool, undefine: string -> bool, remove: string -> bool)

  /** `virsh destroy`: stops a running domain; a transient one is then gone. */
  function AfterDestroy(d: Domain, works: bool): Option<Domain> {
    if works && d.running then (if d.persistent then Some(d.(running := false)) else None) else Some(d)
  }

  /** `virsh undefine` succeeds on a persistent domain. */
  predicate UndefineOk(d: Option<Domain>, works: bool) {
    works && d.Some? && d.value.persistent
  }

  /** An undefined domain is gone if it was off; a running one stays, as a transient domain. */
  function AfterUndefine(d: Option<Domain>, works: bool): Option<Domain> {
    if !UndefineOk(d, works) then d
    else if d.value.running then Some(d.value.(persistent := false))
    else None
  }

  function Treated(d: Domain, name: string, w: Works): Option<Domain> {
    AfterUndefine(AfterDestroy(d, w.destroy(name)), w.undefine(name))
  }

  predicate TreatedOk(d: Domain, name: string, w: Works) {
    UndefineOk(AfterDestroy(d, w.destroy(name)), w.undefine(name))
  }

  /** The host's domains after cleaning those of `names`. */
  ghost function Cleaned(h: Host, names: set<string>, w: Works): map<string, Domain> {
    map d | d in h.domains && (d in names ==> Treated(h.domains[d], d, w).Some?)
      :: if d in names then Treated(h.domains[d], d, w).value else h.domains[d]
  }

  ghost function OrphanNames(rows: seq<Row>): set<string> {
    set r | r in rows && r.OrphanDomain? :: r.domain
  }

  ghost function StaleNames(rows: seq<Row>): set<string> {
    set r | r in rows && r.StaleDir? :: r.dir
  }

  function Replaced(domains: map<string, Domain>, name: string, d: Option<Domain>): map<string, Domain> {
    if d.Some? then domains[name := d.value] else domains - {name}
  }

  class Node {
    var domains: map<string, Domain>
    var dirs: set<string>
    const works: Works

    constructor (h: Host, works: Works)
      ensures domains == h.domains && dirs == h.dirs && this.works == works
    {
      domains := h.domains;
      dirs := h.dirs;
      this.works := works;
    }

    method Destroy(name: string) returns (ok: bool)
      modifies this`domains
      ensures name !in old(domains) ==> domains == old(domains)
      ensures name in old(domains) ==>
        domains == Replaced(old(domains), name, AfterDestroy(old(domains)[name], works.destroy(name)))
    {
      ok := name in domains && works.destroy(name) && domains[name].running;
      if name in domains {
        domains := Replaced(domains, name, AfterDestroy(domains[name], works.destroy(name)));
      }
    }

    method Undefine(name: string) returns (ok: bool)
      modifies this`domains
      ensures ok == (name in old(domains) && UndefineOk(Some(old(domains)[name]), works.undefine(name)))
      ensures name !in old(domains) ==> domains == old(domains)
      ensures name in old(domains) ==>
        domains == Replaced(old(domains), name, AfterUndefine(Some(old(domains)[name]), works.undefine(name)))
    {
      ok := name in domains && UndefineOk(Some(domains[name]), works.undefine(name));
      if name in domains {
        domains := Replaced(domains, name, AfterUndefine(Some(domains[name]), works.undefine(name)));
      }
    }

    method RemoveDir(name: string) returns (ok: bool)
      modifies this`dirs
      ensures ok == works.remove(name)
      ensures dirs == if ok then old(dirs) - {name} else old(dirs)
    {
      ok := works.remove(name);
      if ok {
        dirs := dirs - {name};
      }
    }

    /** One orphan: destroy, whatever comes of it, then undefine. */
    method CleanDomain(name: string) returns (ok: bool)
      requires name in domains
      modifies this`domains
      ensures ok == TreatedOk(old(domains)[name], name, works)
      ensures domains == Replaced(old(domains), name, Treated(old(domains)[name], name, works))
    {
      ghost var d := AfterDestroy(domains[name], works.destroy(name));
      var _ := Destroy(name);
      ok := Undefine(name);
    }
  }

  method CleanOrphans(node: Node, rows: seq<Row>) returns (code: int)
    requires OrphanNames(rows) <= node.domains.Keys && OrphansOnce(rows)
    modifies node`domains
    ensures node.domains == Cleaned(Host(old(node.domains), node.dirs), OrphanNames(rows), node.works)
    ensures code == 0 <==> forall d :: d in OrphanNames(rows) ==> TreatedOk(old(node.domains)[d], d, node.works)
  {
    var failures := 0;
    ghost var h := Host(node.domains, node.dirs);
    assert rows[..0] == [] && OrphanNames([]) == {};
    assert Cleaned(h, {}, node.works) == h.domains;
    for i := 0 to |rows|
      invariant node.domains == Cleaned(h, OrphanNames(rows[..i]), node.works)
      invariant failures >= 0
      invariant failures == 0 <==> forall d :: d in OrphanNames(rows[..i]) ==> TreatedOk(h.domains[d], d, node.works)
    {
      NextOrphan(rows, i);
      if rows[i].OrphanDomain? {
        assert rows[i] in rows && rows[i].domain in OrphanNames(rows);
        assert node.domains[rows[i].domain] == h.domains[rows[i].domain];
        var ok := node.CleanDomain(rows[i].domain);
        if !ok {
          failures := failures + 1;
        }
        OneMoreCleaned(h, OrphanNames(rows[..i]), rows[i].domain, node.works);
      }
    }
    assert rows[..|rows|] == rows;
    code := if failures != 0 then 1 else 0;
  }

  lemma NextOrphan(rows: seq<Row>, i: nat)
    requires i < |rows| && OrphansOnce(rows)
    ensures OrphanNames(rows[..i + 1]) ==
      OrphanNames(rows[..i]) + (if rows[i].OrphanDomain? then {rows[i].domain} else {})
    ensures rows[i].OrphanDomain? ==> rows[i].domain !in OrphanNames(rows[..i])
    ensures OrphanNames(rows[..i]) <= OrphanNames(rows)
  {
    assert rows[..i + 1] == rows[..i] + [rows[i]];
  }

  lemma OneMoreCleaned(h: Host, names: set<string>, name: string, w: Works)
    requires name in h.domains && name !in names
    ensures Cleaned(h, names + {name}, w) ==
      Replaced(Cleaned(h, names, w), name, Treated(h.domains[name], name, w))
  {
  }

  method CleanStale(node: Node, rows: seq<Row>) returns (code: int)
    modifies node`dirs
    ensures node.dirs == old(node.dirs) - (set d | d in StaleNames(rows) && UuidShaped(d) && node.works.remove(d))
    ensures code == 0 <==> forall d :: d in StaleNames(rows) ==> UuidShaped(d) && node.works.remove(d)
  {
    var failures := 0;
    ghost var before := node.dirs;
    for i := 0 to |rows|
      invariant node.dirs == before - (set d | d in StaleNames(rows[..i]) && UuidShaped(d) && node.works.remove(d))
      invariant failures >= 0
      invariant failures == 0 <==> forall d :: d in StaleNames(rows[..i]) ==> UuidShaped(d) && node.works.remove(d)
    {
      assert rows[..i + 1] == rows[..i] + [rows[i]];
      assert StaleNames(rows[..i + 1]) == StaleNames(rows[..i]) + (if rows[i].StaleDir? then {rows[i].dir} else {});
      if rows[i].StaleDir? {
        if !UuidShaped(rows[i].dir) {
          failures := failures + 1;
        } else {
          var ok := node.RemoveDir(rows[i].dir);
          if !ok {
            failures := failures + 1;
          }
        }
      }
    }
    assert rows[..|rows|] == rows;
    code := if failures != 0 then 1 else 0;
  }

  datatype Target = OrphanDomains | StaleDirectories

  /** One run with --clean: reconcile, then clean the chosen class of findings. */
  method Cleanup(node: Node, nova: Instances, view: Reads, target: Target) returns (rows: seq<Row>, code: int)
    requires UuidsUnique(Host(node.domains, node.dirs))
    modifies node
    ensures ReportOf(Host(old(node.domains), old(node.dirs)), nova, view, rows)
    ensures target == OrphanDomains ==>
      && node.domains == Cleaned(Host(old(node.domains), old(node.dirs)), OrphanNames(rows), node.works)
      && node.dirs == old(node.dirs)
      && (code == 0 <==>
           forall d :: d in OrphanNames(rows) && d in old(node.domains) ==>
             TreatedOk(old(node.domains)[d], d, node.works))
    ensures target == StaleDirectories ==>
      && node.domains == old(node.domains)
      && node.dirs == CleanedDirs(Host(old(node.domains), old(node.dirs)), rows, node.works)
      && (code == 0 <==> forall d :: d in StaleNames(rows) ==> node.works.remove(d))
  {
    ghost var h := Host(node.domains, node.dirs);
    rows := Reconcile(Host(node.domains, node.dirs), nova, view);
    NamedInHost(h, nova, view, rows);
    if target == OrphanDomains {
      code := CleanOrphans(node, rows);
    } else {
      code := CleanStale(node, rows);
    }
  }

  /** Rows name what is there, and only UUID-shaped directories, so the guard before rm never trips. */
  lemma NamedInHost(h: Host, nova: Instances, view: Reads, rows: seq<Row>)
    requires ReportOf(h, nova, view, rows)
    ensures OrphanNames(rows) <= h.domains.Keys
    ensures forall d :: d in StaleNames(rows) ==> d in h.dirs && UuidShaped(d)
  {
    forall d | d in OrphanNames(rows) ensures d in h.domains {
      var r :| r in rows && r.OrphanDomain? && r.domain == d;
      assert Reported(h, nova, view, r);
    }
    forall d | d in StaleNames(rows) ensures d in h.dirs && UuidShaped(d) {
      var r :| r in rows && r.StaleDir? && r.dir == d;
      assert Reported(h, nova, view, r);
    }
  }

  // -------------------------------------------------------------- guarantees

  /** `rows` is what reconciling `h` reported. */
  ghost predicate ReportOf(h: Host, nova: Instances, view: Reads, rows: seq<Row>) {
    forall row :: row in rows <==> Reported(h, nova, view, row)
  }

  /** The directories after cleaning. */
  ghost function CleanedDirs(h: Host, rows: seq<Row>, w: Works): set<string> {
    h.dirs - (set d | d in StaleNames(rows) && UuidShaped(d) && w.remove(d))
  }

  /** What a report lists, row by row, in Nova's own fields. */
  lemma ReportSpelled(h: Host, nova: Instances, view: Reads, rows: seq<Row>)
    requires ReportOf(h, nova, view, rows)
    ensures forall u, d :: OrphanDomain(u, d) in rows <==>
      && view.domainList && d in h.domains && h.domains[d].uuid == u && view.uuidOf(d) && u != ""
      && (u !in nova || Lower(nova[u].status) == "deleted")
    ensures forall u :: MissingDomain(u) in rows <==>
      && view.domainList && u in nova && Lower(nova[u].status) != "deleted"
      && (var state := Lower(nova[u].vmState);
          state != "shelved" && state != "shelved_offloaded" && state != "deleted" && state != "error"
            && state != "building")
      && (forall d :: d in h.domains && view.uuidOf(d) && h.domains[d].uuid == u ==> u == "")
    ensures forall dir :: StaleDir(dir) in rows <==>
      && view.domainList && view.dirList && dir in h.dirs && |dir| == 36 && multiset(dir)['-'] == 4
      && (dir !in nova || Lower(nova[dir].status) == "deleted")
      && (forall d :: d in h.domains && view.uuidOf(d) ==> h.domains[d].uuid != dir)
  {
    forall u | u in nova ensures Live(nova, u) <==> Lower(nova[u].status) != "deleted" {
      DeletedIff(nova[u]);
    }
    forall u, d
      ensures OrphanDomain(u, d) in rows <==>
        && view.domainList && d in h.domains && h.domains[d].uuid == u && view.uuidOf(d) && u != ""
        && (u !in nova || Lower(nova[u].status) == "deleted")
    {
      assert OrphanDomain(u, d) in rows <==> Reported(h, nova, view, OrphanDomain(u, d));
    }
    forall u ensures MissingDomain(u) in rows <==> view.domainList && IsMissing(h, nova, view, u) {
      assert MissingDomain(u) in rows <==> Reported(h, nova, view, MissingDomain(u));
    }
    forall dir ensures StaleDir(dir) in rows <==> view.domainList && IsStale(h, nova, view, dir) {
      assert StaleDir(dir) in rows <==> Reported(h, nova, view, StaleDir(dir));
    }
    forall dir ensures Dashes(dir) == multiset(dir)['-'] {
      DashesCounted(dir);
    }
  }

  /**
   Cleanup never touches an instance Nova holds with a status other than deleted: whatever reads failed
   and whatever commands work, its domain and its directory are still there, unchanged.
   */
  lemma LiveInstancesUntouched(h: Host, nova: Instances, view: Reads, rows: seq<Row>, w: Works, uuid: string)
    requires ReportOf(h, nova, view, rows)
    requires uuid in nova && Lower(nova[uuid].status) != "deleted"
    ensures forall d :: d in h.domains && h.domains[d].uuid == uuid ==>
      d in Cleaned(h, OrphanNames(rows), w) && Cleaned(h, OrphanNames(rows), w)[d] == h.domains[d]
    ensures uuid in h.dirs ==> uuid in CleanedDirs(h, rows, w)
  {
    ReportSpelled(h, nova, view, rows);
    forall d | d in OrphanNames(rows) ensures d in h.domains && h.domains[d].uuid != uuid {
      var r :| r in rows && r.OrphanDomain? && r.domain == d;
      assert OrphanDomain(r.uuid, d) in rows;
    }
    forall dir | dir in StaleNames(rows) ensures dir != uuid {
      assert StaleDir(dir) in rows;
    }
  }

  ghost predicate AllRead(view: Reads) {
    view.domainList && view.dirList && forall d :: view.uuidOf(d)
  }

  ghost predicate UuidsSet(h: Host) {
    forall d :: d in h.domains ==> h.domains[d].uuid != ""
  }

  ghost function OrphansOf(h: Host, nova: Instances): set<string> {
    set d | d in h.domains && !Live(nova, h.domains[d].uuid)
  }

  lemma OrphanNamesAre(h: Host, nova: Instances, view: Reads, rows: seq<Row>)
    requires ReportOf(h, nova, view, rows) && AllRead(view) && UuidsSet(h)
    ensures OrphanNames(rows) == OrphansOf(h, nova)
  {
    forall d ensures d in OrphanNames(rows) <==> d in OrphansOf(h, nova) {
      if d in OrphansOf(h, nova) {
        var r := OrphanDomain(h.domains[d].uuid, d);
        assert Reported(h, nova, view, r);
        assert r in rows;
      }
      if d in OrphanNames(rows) {
        var r :| r in rows && r.OrphanDomain? && r.domain == d;
        assert Reported(h, nova, view, r);
      }
    }
  }

  /** What becomes of one orphan, whatever works: success is undefining a persistent domain. */
  lemma TreatmentSpelled(d: Domain, name: string, w: Works)
    ensures TreatedOk(d, name, w) <==> d.persistent && w.undefine(name)
    ensures Treated(d, name, w) ==
      if d.running && !w.destroy(name) then Some(d.(persistent := d.persistent && !w.undefine(name)))
      else if d.persistent && !w.undefine(name) then Some(d.(running := false))
      else if d.persistent || d.running then None
      else Some(d)
  {
  }

  /** Cleaning a domain "successfully" leaves it behind only if it was running and the destroy did not work. */
  lemma SuccessfulTreatment(d: Domain, name: string, w: Works)
    requires TreatedOk(d, name, w)
    ensures Treated(d, name, w).None? <==> !d.running || w.destroy(name)
    ensures Treated(d, name, w).Some? ==> Treated(d, name, w).value == d.(persistent := false)
  {
  }

  /** Every orphan was off, or its destroy works. */
  ghost predicate CanStop(h: Host, nova: Instances, w: Works) {
    forall d :: d in OrphansOf(h, nova) ==> !h.domains[d].running || w.destroy(d)
  }

  ghost predicate OrphanCleanOk(h: Host, nova: Instances, w: Works) {
    forall d :: d in OrphansOf(h, nova) ==> TreatedOk(h.domains[d], d, w)
  }

  /** The host after a successful clean of orphans, a fresh reconcile, and a successful clean of directories. */
  ghost function AfterBoth(h: Host, nova: Instances, view: Reads, stale: seq<Row>, w: Works): Host {
    Host(Cleaned(h, OrphansOf(h, nova), w), CleanedDirs(h, stale, w))
  }

  lemma OrphansLeft(h: Host, nova: Instances, w: Works)
    requires OrphanCleanOk(h, nova, w)
    ensures var after := Host(Cleaned(h, OrphansOf(h, nova), w), h.dirs);
      && OrphansOf(after, nova) == (set d | d in OrphansOf(h, nova) && h.domains[d].running && !w.destroy(d))
      && (UuidsSet(h) ==> UuidsSet(after))
      && (forall d :: d in h.domains && d !in OrphansOf(h, nova) ==>
           d in after.domains && after.domains[d] == h.domains[d])
  {
    var after := Host(Cleaned(h, OrphansOf(h, nova), w), h.dirs);
    forall d | d in OrphansOf(h, nova)
      ensures d in after.domains <==> h.domains[d].running && !w.destroy(d)
      ensures d in after.domains ==> after.domains[d].uuid == h.domains[d].uuid
    {
      SuccessfulTreatment(h.domains[d], d, w);
    }
  }

  lemma MissingUnchanged(h: Host, after: Host, nova: Instances, view: Reads, uuid: string)
    requires AllRead(view)
    requires forall d :: d in h.domains && d !in OrphansOf(h, nova) ==>
      d in after.domains && after.domains[d] == h.domains[d]
    requires forall d :: d in after.domains ==> d in h.domains && after.domains[d].uuid == h.domains[d].uuid
    ensures IsMissing(h, nova, view, uuid) <==> IsMissing(after, nova, view, uuid)
  {
    if Live(nova, uuid) && KnownUuid(h, view, uuid) {
      var d :| d in h.domains && view.uuidOf(d) && h.domains[d].uuid == uuid;
      assert d in after.domains && after.domains[d].uuid == uuid;
    }
  }

  /**
   Cleanup converges. On a quiet host with every read succeeding, take a clean of orphan domains
   that reports success, a fresh reconcile, and a clean of stale directories that reports success.
   What a last reconcile reports as missing is what the first did, and it reports nothing else if
   and only if every orphan was off or could be destroyed: `virsh undefine` succeeding on a domain
   that kept running is counted as success.
   */
  lemma CleanupConvergesIff(h: Host, nova: Instances, view: Reads, w: Works, mid: seq<Row>)
    requires UuidsSet(h) && AllRead(view) && OrphanCleanOk(h, nova, w)
    requires ReportOf(Host(Cleaned(h, OrphansOf(h, nova), w), h.dirs), nova, view, mid)
    requires forall d :: d in StaleNames(mid) ==> w.remove(d)
    ensures var end := AfterBoth(h, nova, view, mid, w);
      && (forall uuid :: Reported(end, nova, view, MissingDomain(uuid)) <==>
           Reported(h, nova, view, MissingDomain(uuid)))
      && ((forall row :: Reported(end, nova, view, row) ==> row.MissingDomain?) <==> CanStop(h, nova, w))
  {
    var first := Host(Cleaned(h, OrphansOf(h, nova), w), h.dirs);
    var end := AfterBoth(h, nova, view, mid, w);
    OrphansLeft(h, nova, w);
    forall d | d in end.domains ensures d in h.domains && end.domains[d].uuid == h.domains[d].uuid {
      if d in OrphansOf(h, nova) {
        SuccessfulTreatment(h.domains[d], d, w);
      }
    }
    forall uuid
      ensures Reported(end, nova, view, MissingDomain(uuid)) <==> Reported(h, nova, view, MissingDomain(uuid))
    {
      MissingUnchanged(h, end, nova, view, uuid);
    }
    NoStaleLeft(first, nova, view, mid, w);
    if CanStop(h, nova, w) {
      assert OrphansOf(first, nova) == {};
    } else {
      var d :| d in OrphansOf(h, nova) && h.domains[d].running && !w.destroy(d);
      assert d in OrphansOf(first, nova);
      assert Reported(end, nova, view, OrphanDomain(end.domains[d].uuid, d));
    }
  }

  /** After a successful clean of directories no directory is stale. */
  lemma NoStaleLeft(h: Host, nova: Instances, view: Reads, rows: seq<Row>, w: Works)
    requires ReportOf(h, nova, view, rows) && AllRead(view)
    requires forall d :: d in StaleNames(rows) ==> w.remove(d)
    ensures forall dir :: !Reported(Host(h.domains, CleanedDirs(h, rows, w)), nova, view, StaleDir(dir))
  {
    var after := Host(h.domains, CleanedDirs(h, rows, w));
    forall dir ensures !Reported(after, nova, view, StaleDir(dir)) {
      if dir in h.dirs && UuidShaped(dir) && !Live(nova, dir) && !KnownUuid(after, view, dir) {
        assert KnownUuid(h, view, dir) ==> KnownUuid(after, view, dir);
        assert Reported(h, nova, view, StaleDir(dir));
        assert StaleDir(dir) in rows;
        assert dir in StaleNames(rows);
      }
    }
  }

  /** The contracts of the two cleaning methods, read as the hypotheses above. */
  lemma CleanIsTreatment(h: Host, nova: Instances, view: Reads, rows: seq<Row>, w: Works)
    requires ReportOf(h, nova, view, rows) && AllRead(view) && UuidsSet(h)
    ensures OrphanNames(rows) <= h.domains.Keys
    ensures Cleaned(h, OrphanNames(rows), w) == Cleaned(h, OrphansOf(h, nova), w)
    ensures (forall d :: d in OrphanNames(rows) ==> TreatedOk(h.domains[d], d, w)) <==> OrphanCleanOk(h, nova, w)
  {
    OrphanNamesAre(h, nova, view, rows);
  }
}
