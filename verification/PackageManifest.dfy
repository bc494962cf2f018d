/** The manifest rewrites of scripts/publish-packages.ts: workspace specifiers resolved and
    unpublished packages dropped, `publishConfig` hoisted, and the file put back afterwards. */
module PackageManifest {
  import opened Options

  datatype Entry<V> = Entry(key: string, value: V)

  /** The entries of an object in order. */
  type Block<V> = seq<Entry<V>>

  datatype PublishConfig<J> = Absent | NotAnObject(json: J) | Fields(fields: Block<J>)

  /** A parsed package.json: the parts the script looks into, every other field as the JSON
      value (of type J) it holds, and all field names in the order they are written. */
  datatype Manifest<J> = Manifest(
    dependencies: Option<Block<string>>,
    devDependencies: Option<Block<string>>,
    peerDependencies: Option<Block<string>>,
    peerDependenciesMeta: Option<Block<J>>,
    optionalDependencies: Option<Block<string>>,
    publishConfig: PublishConfig<J>,
    rest: map<string, J>,
    names: seq<string>)

  /** The packages about to be published and their versions. */
  datatype Release = Release(publishable: set<string>, versions: map<string, string>)

  const SCOPE := "@executor-js/"
  const WORKSPACE := "workspace:"

  predicate StartsWith(s: string, prefix: string) { |prefix| <= |s| && s[..|prefix|] == prefix }

  predicate Dropped(r: Release, key: string) { StartsWith(key, SCOPE) && key !in r.publishable }

  /** What a kept dependency's specifier becomes. */
  function Resolved(r: Release, e: Entry<string>): string {
    if e.key in r.publishable && StartsWith(e.value, WORKSPACE) && e.key in r.versions then r.versions[e.key]
    else e.value
  }

  // ----- dependency blocks

  function Renamed(r: Release, block: Block<string>): Block<string> {
    if block == [] then []
    else
      var n := |block| - 1;
      Renamed(r, block[..n]) + (if Dropped(r, block[n].key) then [] else [Entry(block[n].key, Resolved(r, block[n]))])
  }

  function RenamedMeta<V>(r: Release, block: Block<V>): Block<V> {
    if block == [] then []
    else
      var n := |block| - 1;
      RenamedMeta(r, block[..n]) + (if Dropped(r, block[n].key) then [] else [block[n]])
  }

  /** The regular and the peer rewriter branch differently and report changes differently, and
      compute the same block. */
  method RenameDepBlock(r: Release, block: Block<string>) returns (result: Block<string>)
    ensures result == Renamed(r, block)
  {
    var next, mutated := [], false;
    for i := 0 to |block|
      invariant next == Renamed(r, block[..i])
      invariant !mutated ==> next == block[..i]
    {
      var e := block[i];
      if e.key in r.publishable && StartsWith(e.value, WORKSPACE) {
        next := next + [Entry(e.key, if e.key in r.versions then r.versions[e.key] else e.value)];
        mutated := true;
      } else if StartsWith(e.key, SCOPE) && e.key !in r.publishable {
        mutated := true;
      } else {
        next := next + [e];
      }
      assert block[..i + 1][..i] == block[..i];
      assert block[..i + 1] == block[..i] + [e];
    }
    assert block[..|block|] == block;
    result := if mutated then next else block;
  }

  method RenamePeerDepBlock(r: Release, block: Block<string>) returns (result: Block<string>)
    ensures result == Renamed(r, block)
  {
    var next, mutated := [], false;
    for i := 0 to |block|
      invariant next == Renamed(r, block[..i])
      invariant !mutated ==> next == block[..i]
    {
      var e := block[i];
      if e.key in r.publishable {
        var value := if StartsWith(e.value, WORKSPACE) && e.key in r.versions then r.versions[e.key] else e.value;
        next := next + [Entry(e.key, value)];
        if value != e.value { mutated := true; }
      } else if StartsWith(e.key, SCOPE) {
        mutated := true;
      } else {
        next := next + [e];
      }
      assert block[..i + 1][..i] == block[..i];
      assert block[..i + 1] == block[..i] + [e];
    }
    assert block[..|block|] == block;
    result := if mutated then next else block;
  }

  method RenamePeerMetaBlock<V>(r: Release, block: Block<V>) returns (result: Block<V>)
    ensures result == RenamedMeta(r, block)
  {
    var next, mutated := [], false;
    for i := 0 to |block|
      invariant next == RenamedMeta(r, block[..i])
      invariant !mutated ==> next == block[..i]
    {
      var e := block[i];
      if e.key in r.publishable {
        next := next + [e];
      } else if StartsWith(e.key, SCOPE) {
        mutated := true;
      } else {
        next := next + [e];
      }
      assert block[..i + 1][..i] == block[..i];
      assert block[..i + 1] == block[..i] + [e];
    }
    assert block[..|block|] == block;
    result := if mutated then next else block;
  }

  /** Exactly the unpublished packages of the scope go; every other entry stays, resolved. */
  lemma {:induction false} RenamedEntries(r: Release, block: Block<string>)
    ensures forall e :: e in Renamed(r, block) <==>
              exists o :: o in block && !Dropped(r, o.key) && e == Entry(o.key, Resolved(r, o))
    decreases block
  {
    if block != [] {
      var n := |block| - 1;
      assert block == block[..n] + [block[n]];
      RenamedEntries(r, block[..n]);
    }
  }

  predicate HasKey<V>(block: Block<V>, key: string) { exists i :: 0 <= i < |block| && block[i].key == key }

  /** One key stands in front of another. */
  predicate InFront<V>(block: Block<V>, a: string, b: string) {
    exists i, j :: 0 <= i < j < |block| && block[i].key == a && block[j].key == b
  }

  lemma {:induction false} InFrontAppend<V>(block: Block<V>, e: Entry<V>, a: string, b: string)
    ensures HasKey(block + [e], a) <==> HasKey(block, a) || e.key == a
    ensures InFront(block + [e], a, b) <==> InFront(block, a, b) || (HasKey(block, a) && e.key == b)
  {
    var all := block + [e];
    assert forall i :: 0 <= i < |block| ==> all[i] == block[i];
    assert all[|block|] == e;
  }

  /** Which keys a dependency block keeps, and in which order: those that are published or of
      another scope, as they stood. */
  lemma {:induction false} RenamedKeys(r: Release, block: Block<string>, a: string, b: string)
    ensures HasKey(Renamed(r, block), a) <==> HasKey(block, a) && KeptKey(r, a)
    ensures InFront(Renamed(r, block), a, b) <==> InFront(block, a, b) && KeptKey(r, a) && KeptKey(r, b)
    decreases block
  {
    if block != [] {
      var n := |block| - 1;
      var kept := Renamed(r, block[..n]);
      assert block == block[..n] + [block[n]];
      RenamedKeys(r, block[..n], a, b);
      InFrontAppend(block[..n], block[n], a, b);
      InFrontAppend(kept, Entry(block[n].key, Resolved(r, block[n])), a, b);
      assert kept + [] == kept;
      hide HasKey, InFront, StartsWith, Resolved;
    }
  }

  predicate KeptKey(r: Release, key: string) { key in r.publishable || !StartsWith(key, "@executor-js/") }

  /** A published package on a workspace specifier gets exactly its version; every other entry that
      is kept stays as it was. */
  lemma {:induction false} RenamedVersions(r: Release, block: Block<string>, e: Entry<string>)
    requires e in block && KeptKey(r, e.key)
    ensures e.key in r.publishable && e.key in r.versions && StartsWith(e.value, "workspace:") ==>
              Entry(e.key, r.versions[e.key]) in Renamed(r, block)
    ensures e.key !in r.publishable || e.key !in r.versions || !StartsWith(e.value, "workspace:") ==>
              e in Renamed(r, block)
  {
    RenamedEntries(r, block);
    assert Entry(e.key, Resolved(r, e)) in Renamed(r, block);
  }

  predicate AllConcrete(r: Release) {
    forall p :: p in r.publishable ==> p in r.versions && !StartsWith(r.versions[p], WORKSPACE)
  }

  /** With a concrete version for every publishable package, none is left on a workspace specifier. */
  lemma {:induction false} NoWorkspaceSpecifierLeft(r: Release, block: Block<string>)
    requires AllConcrete(r)
    ensures forall e :: e in Renamed(r, block) && e.key in r.publishable ==> !StartsWith(e.value, WORKSPACE)
  {
    RenamedEntries(r, block);
  }

  function Keys<V(==)>(block: Block<V>): set<string> { set e | e in block :: e.key }

  lemma {:induction false} RenamedMetaEntries<V>(r: Release, block: Block<V>)
    ensures forall e :: e in RenamedMeta(r, block) <==> e in block && !Dropped(r, e.key)
    decreases block
  {
    if block != [] {
      var n := |block| - 1;
      assert block == block[..n] + [block[n]];
      RenamedMetaEntries(r, block[..n]);
    }
  }

  /** Peer metadata keeps the same keys as a dependency block, in the order they stood. */
  lemma {:induction false} RenamedMetaKeys<V>(r: Release, block: Block<V>, a: string, b: string)
    ensures HasKey(RenamedMeta(r, block), a) <==> HasKey(block, a) && KeptKey(r, a)
    ensures InFront(RenamedMeta(r, block), a, b) <==> InFront(block, a, b) && KeptKey(r, a) && KeptKey(r, b)
    decreases block
  {
    if block != [] {
      var n := |block| - 1;
      var kept := RenamedMeta(r, block[..n]);
      assert block == block[..n] + [block[n]];
      RenamedMetaKeys(r, block[..n], a, b);
      InFrontAppend(block[..n], block[n], a, b);
      InFrontAppend(kept, block[n], a, b);
      assert kept + [] == kept;
      hide HasKey, InFront, StartsWith;
    }
  }

  /** Peer metadata stays within the peers. */
  lemma {:induction false} MetaStaysWithinPeers<V>(r: Release, peers: Block<string>, meta: Block<V>)
    requires Keys(meta) <= Keys(peers)
    ensures Keys(RenamedMeta(r, meta)) <= Keys(Renamed(r, peers))
  {
    RenamedEntries(r, peers);
    RenamedMetaEntries(r, meta);
    forall k | k in Keys(RenamedMeta(r, meta))
      ensures k in Keys(Renamed(r, peers))
    {
      assert k in Keys(meta);
      var o :| o in peers && o.key == k;
      assert Entry(k, Resolved(r, o)) in Renamed(r, peers);
    }
  }

  lemma {:induction false} RenamedTwice(r: Release, block: Block<string>)
    ensures Renamed(r, Renamed(r, block)) == Renamed(r, block)
    decreases block
  {
    if block != [] {
      var n := |block| - 1;
      var init := Renamed(r, block[..n]);
      RenamedTwice(r, block[..n]);
      if !Dropped(r, block[n].key) {
        var e := Entry(block[n].key, Resolved(r, block[n]));
        assert (init + [e])[..|init|] == init;
        assert Resolved(r, e) == e.value;
      } else {
        assert init + [] == init;
      }
    }
  }

  lemma {:induction false} RenamedMetaTwice<V>(r: Release, block: Block<V>)
    ensures RenamedMeta(r, RenamedMeta(r, block)) == RenamedMeta(r, block)
    decreases block
  {
    if block != [] {
      var n := |block| - 1;
      var init := RenamedMeta(r, block[..n]);
      RenamedMetaTwice(r, block[..n]);
      if !Dropped(r, block[n].key) {
        assert (init + [block[n]])[..|init|] == init;
      } else {
        assert init + [] == init;
      }
    }
  }

  // ----- the two manifest rewrites

  function OnBlock(r: Release, block: Option<Block<string>>): Option<Block<string>> {
    if block.None? then None else Some(Renamed(r, block.value))
  }

  function OnMeta<J>(r: Release, block: Option<Block<J>>): Option<Block<J>> {
    if block.None? then None else Some(RenamedMeta(r, block.value))
  }

  /** A block that is absent stays absent: JSON writes no field for `undefined`. */
  function WithVersions<J>(r: Release, m: Manifest<J>): Manifest<J> {
    m.(dependencies := OnBlock(r, m.dependencies),
       devDependencies := OnBlock(r, m.devDependencies),
       peerDependencies := OnBlock(r, m.peerDependencies),
       peerDependenciesMeta := OnMeta(r, m.peerDependenciesMeta),
       optionalDependencies := OnBlock(r, m.optionalDependencies))
  }

  predicate Overridable(key: string) { key in OVERRIDABLE }

  const PUBLISH_CONFIG := "publishConfig"
  const OVERRIDABLE := {"exports", "main", "module", "types", "typings", "bin", "browser", "files"}

  function Hoisted<J>(rest: map<string, J>, fields: Block<J>): map<string, J> {
    if fields == [] then rest
    else
      var n := |fields| - 1;
      var before := Hoisted(rest, fields[..n]);
      if Overridable(fields[n].key) then before[fields[n].key := fields[n].value] else before
  }

  /** Assigning a field keeps the place it has, or appends it. */
  function Assigned(names: seq<string>, name: string): seq<string> {
    if name in names then names else names + [name]
  }

  function HoistedNames<J>(names: seq<string>, fields: Block<J>): seq<string> {
    if fields == [] then names
    else
      var n := |fields| - 1;
      var before := HoistedNames(names, fields[..n]);
      if Overridable(fields[n].key) then Assigned(before, fields[n].key) else before
  }

  function Deleted(names: seq<string>, name: string): seq<string> {
    if names == [] then []
    else
      var n := |names| - 1;
      Deleted(names[..n], name) + (if names[n] == name then [] else [names[n]])
  }

  function Unhoisted<J>(fields: Block<J>): Block<J> {
    if fields == [] then []
    else
      var n := |fields| - 1;
      Unhoisted(fields[..n]) + (if Overridable(fields[n].key) then [] else [fields[n]])
  }

  predicate HasOverridable<J>(fields: Block<J>) {
    fields != [] && (HasOverridable(fields[..|fields| - 1]) || Overridable(fields[|fields| - 1].key))
  }

  predicate Hoists<J>(m: Manifest<J>) { m.publishConfig.Fields? && HasOverridable(m.publishConfig.fields) }

  /** The entry points of a package are overridable; what npm itself reads is not. */
  lemma {:induction false} EntryPointsAreOverridable()
    ensures Overridable("exports") && Overridable("main") && Overridable("module") && Overridable("types")
    ensures Overridable("typings") && Overridable("bin") && Overridable("browser") && Overridable("files")
    ensures !Overridable("access") && !Overridable("tag") && !Overridable("registry")
  {
    assert "access"[0] == 'a' && |"tag"| == 3 && "registry"[0] == 'r';
  }

  /** The manifest with hoisted fields: `publishConfig` goes when nothing is left in it. */
  function WithFields<J>(m: Manifest<J>, top: map<string, J>, names: seq<string>, left: Block<J>): Manifest<J> {
    if left == [] then m.(rest := top, publishConfig := Absent, names := Deleted(names, PUBLISH_CONFIG))
    else m.(rest := top, publishConfig := Fields(left), names := names)
  }

  function WithHoisting<J>(m: Manifest<J>): Manifest<J> {
    if !Hoists(m) then m
    else
      var fields := m.publishConfig.fields;
      WithFields(m, Hoisted(m.rest, fields), HoistedNames(m.names, fields), Unhoisted(fields))
  }

  /** The loop over `publishConfig`, as the code runs it. */
  method HoistFields<J>(rest: map<string, J>, names: seq<string>, fields: Block<J>)
    returns (top: map<string, J>, order: seq<string>, left: Block<J>, mutated: bool)
    ensures top == Hoisted(rest, fields) && order == HoistedNames(names, fields) && left == Unhoisted(fields)
    ensures mutated == HasOverridable(fields)
  {
    hide Overridable;
    top, order, left, mutated := rest, names, [], false;
    for i := 0 to |fields|
      invariant top == Hoisted(rest, fields[..i]) && order == HoistedNames(names, fields[..i])
      invariant left == Unhoisted(fields[..i]) && mutated == HasOverridable(fields[..i])
    {
      assert fields[..i + 1][..i] == fields[..i];
      if Overridable(fields[i].key) {
        top, order := top[fields[i].key := fields[i].value], Assigned(order, fields[i].key);
        mutated := true;
      } else {
        left := left + [fields[i]];
      }
    }
    assert fields[..|fields|] == fields;
  }

  lemma {:induction false} UnhoistedIsClear<J>(fields: Block<J>)
    ensures !HasOverridable(Unhoisted(fields))
    decreases fields
  {
    if fields != [] {
      var n := |fields| - 1;
      var init := Unhoisted(fields[..n]);
      UnhoistedIsClear(fields[..n]);
      assert (init + [fields[n]])[..|init|] == init;
      assert init + [] == init;
    }
  }

  /** What is left in `publishConfig`: exactly the other fields, in the order they stood. */
  lemma {:induction false} UnhoistedFields<J>(fields: Block<J>, a: string, b: string)
    ensures forall f :: f in Unhoisted(fields) <==> f in fields && !Overridable(f.key)
    ensures InFront(Unhoisted(fields), a, b) <==> InFront(fields, a, b) && !Overridable(a) && !Overridable(b)
    ensures HasKey(Unhoisted(fields), a) <==> HasKey(fields, a) && !Overridable(a)
    ensures HasOverridable(fields) <==> exists f :: f in fields && Overridable(f.key)
    decreases fields
  {
    hide Overridable;
    if fields != [] {
      var n := |fields| - 1;
      var left := Unhoisted(fields[..n]);
      assert fields == fields[..n] + [fields[n]];
      UnhoistedFields(fields[..n], a, b);
      InFrontAppend(fields[..n], fields[n], a, b);
      InFrontAppend(left, fields[n], a, b);
      assert left + [] == left;
      hide HasKey, InFront;
    }
  }

  lemma {:induction false} HoistingTwice<J>(m: Manifest<J>)
    ensures !Hoists(WithHoisting(m)) && WithHoisting(WithHoisting(m)) == WithHoisting(m)
  {
    if Hoists(m) {
      UnhoistedIsClear(m.publishConfig.fields);
    }
  }

  lemma {:induction false} VersionsTwice<J>(r: Release, m: Manifest<J>)
    ensures WithVersions(r, WithVersions(r, m)) == WithVersions(r, m)
  {
    forall block: Option<Block<string>>
      ensures OnBlock(r, OnBlock(r, block)) == OnBlock(r, block)
    {
      if block.Some? { RenamedTwice(r, block.value); }
    }
    if m.peerDependenciesMeta.Some? { RenamedMetaTwice(r, m.peerDependenciesMeta.value); }
  }

  /** The rewrites commute, so the prepared manifest is a fixed point of both. */
  lemma {:induction false} PreparedIsFixed<J>(r: Release, m: Manifest<J>)
    ensures WithHoisting(WithVersions(r, m)) == WithVersions(r, WithHoisting(m))
    ensures var p := WithHoisting(WithVersions(r, m)); WithVersions(r, p) == p && WithHoisting(p) == p
  {
    hide Renamed, RenamedMeta, Hoisted, HoistedNames, Unhoisted, HasOverridable, Deleted;
    VersionsTwice(r, m);
    HoistingTwice(WithVersions(r, m));
  }

  predicate Clean(r: Release, block: Option<Block<string>>) {
    block.Some? ==> forall e :: e in block.value ==>
      !Dropped(r, e.key) && (e.key in r.publishable ==> !StartsWith(e.value, WORKSPACE))
  }

  /** Every overridable field ends up at the top with its value, and nothing else changes there. */
  lemma {:induction false} HoistedFields<J>(rest: map<string, J>, fields: Block<J>)
    requires InOrder(fields)
    ensures var top := Hoisted(rest, fields);
      forall f :: f in fields && Overridable(f.key) ==> f.key in top && top[f.key] == f.value
    ensures var top := Hoisted(rest, fields);
      forall k :: k in rest && (forall f :: f in fields && Overridable(f.key) ==> f.key != k) ==>
        k in top && top[k] == rest[k]
    ensures var top := Hoisted(rest, fields);
      forall k :: k in top ==> k in rest || exists f :: f in fields && Overridable(f.key) && f.key == k
    decreases fields
  {
    hide Overridable, IsIndex, Index;
    if fields != [] {
      var n := |fields| - 1;
      assert fields == fields[..n] + [fields[n]];
      HoistedFields(rest, fields[..n]);
    }
  }

  /** Hoisting moves every overridable field to the top with its value and keeps every other field
      of `publishConfig`, which goes exactly when there were fields and all were overridable. */
  lemma {:induction false} HoistingMovesExactly<J>(m: Manifest<J>, f: Entry<J>)
    requires m.publishConfig.Fields? && InOrder(m.publishConfig.fields)
    ensures var fields, p := m.publishConfig.fields, WithHoisting(m);
      && (f in fields && Overridable(f.key) ==> f.key in p.rest && p.rest[f.key] == f.value)
      && (f in fields && !Overridable(f.key) ==> p.publishConfig.Fields? && f in p.publishConfig.fields)
      && (p.publishConfig.Fields? && f in p.publishConfig.fields ==> f in fields && !Overridable(f.key))
      && (p.publishConfig.Absent? <==> fields != [] && forall g :: g in fields ==> Overridable(g.key))
  {
    hide Hoisted, HoistedNames, Unhoisted, HasOverridable, Overridable, InOrder, Deleted, HasKey, InFront;
    var fields := m.publishConfig.fields;
    HoistedFields(m.rest, fields);
    UnhoistedFields(fields, "", "");
    NothingLeft(fields);
  }

  lemma {:induction false} NothingLeft<J>(fields: Block<J>)
    ensures Unhoisted(fields) == [] <==> forall g :: g in fields ==> Overridable(g.key)
    ensures !HasOverridable(fields) && (forall g :: g in fields ==> Overridable(g.key)) ==> fields == []
    decreases fields
  {
    hide Overridable;
    if fields != [] {
      var n := |fields| - 1;
      assert fields == fields[..n] + [fields[n]];
      NothingLeft(fields[..n]);
    }
  }

  /** With concrete versions, no block of a prepared manifest names an unpublished package of the
      scope or leaves a published one on a workspace specifier, and nothing is left to hoist. */
  lemma {:induction false} PreparedManifestIsClean<J>(r: Release, m: Manifest<J>)
    requires AllConcrete(r)
    ensures var p := WithHoisting(WithVersions(r, m));
      && Clean(r, p.dependencies) && Clean(r, p.devDependencies) && Clean(r, p.peerDependencies)
      && Clean(r, p.optionalDependencies)
      && (p.peerDependenciesMeta.Some? ==> forall e :: e in p.peerDependenciesMeta.value ==> !Dropped(r, e.key))
      && !Hoists(p)
  {
    HoistingTwice(WithVersions(r, m));
    hide StartsWith, Hoisted, Unhoisted, Renamed, RenamedMeta, HasOverridable;
    forall block: Option<Block<string>>
      ensures Clean(r, OnBlock(r, block))
    {
      if block.Some? {
        RenamedEntries(r, block.value);
        NoWorkspaceSpecifierLeft(r, block.value);
      }
    }
    var meta := WithHoisting(WithVersions(r, m)).peerDependenciesMeta;
    assert meta == OnMeta(r, m.peerDependenciesMeta);
    if meta.Some? {
      RenamedMetaEntries(r, m.peerDependenciesMeta.value);
    }
  }

  // ----- what JSON reads and writes

  /** The order of an object's keys in JavaScript: no key twice, array indices first and ascending. */
  predicate Precedes(a: string, b: string) {
    a != b && (IsIndex(b) ==> IsIndex(a) && Index(a) < Index(b))
  }

  predicate IsIndex(key: string) {
    && key != "" && (forall c :: c in key ==> '0' <= c <= '9')
    && (key[0] == '0' ==> |key| == 1) && Index(key) < 0xffff_ffff
  }

  function Index(digits: string): int {
    if digits == "" then 0 else 10 * Index(digits[..|digits| - 1]) + (digits[|digits| - 1] as int - '0' as int)
  }

  predicate InOrder<V>(block: Block<V>) {
    forall i, j :: 0 <= i < j < |block| ==> Precedes(block[i].key, block[j].key)
  }

  predicate NamesInOrder(names: seq<string>) {
    forall i, j :: 0 <= i < j < |names| ==> Precedes(names[i], names[j])
  }

  function Elements(names: seq<string>): set<string> { set k | k in names }

  predicate BlockInOrder<V>(block: Option<Block<V>>) { block.Some? ==> InOrder(block.value) }

  /** The names of the dependency blocks that are there. */
  predicate NamesBlock<J>(m: Manifest<J>, name: string) {
    || (m.dependencies.Some? && name == "dependencies")
    || (m.devDependencies.Some? && name == "devDependencies")
    || (m.peerDependencies.Some? && name == "peerDependencies")
    || (m.peerDependenciesMeta.Some? && name == "peerDependenciesMeta")
    || (m.optionalDependencies.Some? && name == "optionalDependencies")
  }

  predicate NamesField<J>(m: Manifest<J>, name: string) {
    NamesBlock(m, name) || (!m.publishConfig.Absent? && name == PUBLISH_CONFIG) || name in m.rest
  }

  predicate IsPart(name: string) {
    name in {"dependencies", "devDependencies", "peerDependencies", "peerDependenciesMeta", "optionalDependencies",
             PUBLISH_CONFIG}
  }

  /** A manifest as `JSON.parse` yields it: every object's keys in order, and exactly the names
      of its fields listed. */
  ghost predicate WellFormed<J>(isObject: J -> bool, m: Manifest<J>) {
    && BlockInOrder(m.dependencies) && BlockInOrder(m.devDependencies) && BlockInOrder(m.peerDependencies)
    && BlockInOrder(m.peerDependenciesMeta) && BlockInOrder(m.optionalDependencies)
    && (m.publishConfig.Fields? ==> InOrder(m.publishConfig.fields))
    && (m.publishConfig.NotAnObject? ==> !isObject(m.publishConfig.json))
    && NamesInOrder(m.names) && (forall name :: name in m.rest ==> !IsPart(name))
    && forall name :: name in m.names <==> NamesField(m, name)
  }

  lemma InOrderAppend<V>(block: Block<V>, e: Entry<V>)
    requires InOrder(block) && forall o :: o in block ==> Precedes(o.key, e.key)
    ensures InOrder(block + [e])
  {
  }

  lemma {:induction false} RenamedInOrder(r: Release, block: Block<string>)
    requires InOrder(block)
    ensures InOrder(Renamed(r, block))
    decreases block
  {
    hide Precedes, Dropped;
    if block != [] {
      var n := |block| - 1;
      RenamedInOrder(r, block[..n]);
      RenamedEntries(r, block[..n]);
      if !Dropped(r, block[n].key) {
        InOrderAppend(Renamed(r, block[..n]), Entry(block[n].key, Resolved(r, block[n])));
      }
    }
  }

  lemma {:induction false} RenamedMetaInOrder<V>(r: Release, block: Block<V>)
    requires InOrder(block)
    ensures InOrder(RenamedMeta(r, block)) && forall e :: e in RenamedMeta(r, block) ==> e in block
    decreases block
  {
    hide Precedes, Dropped;
    if block != [] {
      var n := |block| - 1;
      RenamedMetaInOrder(r, block[..n]);
      if !Dropped(r, block[n].key) {
        InOrderAppend(RenamedMeta(r, block[..n]), block[n]);
      }
    }
  }

  lemma {:induction false} UnhoistedInOrder<J>(fields: Block<J>)
    requires InOrder(fields)
    ensures InOrder(Unhoisted(fields)) && forall f :: f in Unhoisted(fields) ==> f in fields
    decreases fields
  {
    hide Precedes, Overridable;
    if fields != [] {
      var n := |fields| - 1;
      UnhoistedInOrder(fields[..n]);
      if !Overridable(fields[n].key) {
        InOrderAppend(Unhoisted(fields[..n]), fields[n]);
      }
    }
  }

  ghost function OverridableKeys<J>(fields: Block<J>): set<string> {
    set f | f in fields && Overridable(f.key) :: f.key
  }

  lemma {:induction false} OverridableIsPlain(key: string)
    requires Overridable(key)
    ensures !IsIndex(key) && !IsPart(key)
  {
    assert key[0] in key;
  }

  lemma {:induction false} OverridableKeysAppend<J>(fields: Block<J>, f: Entry<J>)
    ensures OverridableKeys(fields + [f]) == OverridableKeys(fields) + (if Overridable(f.key) then {f.key} else {})
  {
    hide Overridable;
  }

  lemma {:induction false} AssignedInOrder(names: seq<string>, name: string)
    requires NamesInOrder(names) && !IsIndex(name)
    ensures NamesInOrder(Assigned(names, name))
    ensures Elements(Assigned(names, name)) == Elements(names) + {name}
  {
    hide IsIndex, Index;
  }

  /** Hoisting adds the same names to the fields and to their order. */
  lemma {:induction false} HoistedNamesInOrder<J>(rest: map<string, J>, names: seq<string>, fields: Block<J>)
    requires NamesInOrder(names)
    ensures NamesInOrder(HoistedNames(names, fields))
    ensures Hoisted(rest, fields).Keys == rest.Keys + OverridableKeys(fields)
    ensures Elements(HoistedNames(names, fields)) == Elements(names) + OverridableKeys(fields)
    decreases fields
  {
    hide Overridable, NamesInOrder, IsIndex, Elements, Assigned;
    assert OverridableKeys<J>([]) == {};
    hide OverridableKeys;
    if fields != [] {
      var n := |fields| - 1;
      assert fields == fields[..n] + [fields[n]];
      HoistedNamesInOrder(rest, names, fields[..n]);
      OverridableKeysAppend(fields[..n], fields[n]);
      if Overridable(fields[n].key) {
        OverridableIsPlain(fields[n].key);
        AssignedInOrder(HoistedNames(names, fields[..n]), fields[n].key);
      }
    }
  }

  lemma {:induction false} DeletedInOrder(names: seq<string>, name: string)
    requires NamesInOrder(names)
    ensures NamesInOrder(Deleted(names, name))
    ensures forall k :: k in Deleted(names, name) <==> k in names && k != name
    decreases names
  {
    hide Precedes;
    if names != [] {
      var n := |names| - 1;
      assert names == names[..n] + [names[n]];
      DeletedInOrder(names[..n], name);
      var init := Deleted(names[..n], name);
      assert forall i :: 0 <= i < |init| ==> init[i] in names[..n];
    }
  }

  lemma {:induction false} VersionsWellFormed<J>(isObject: J -> bool, r: Release, m: Manifest<J>)
    requires WellFormed(isObject, m)
    ensures WellFormed(isObject, WithVersions(r, m))
  {
    hide InOrder, NamesInOrder, Renamed, RenamedMeta;
    forall block: Option<Block<string>> | BlockInOrder(block)
      ensures BlockInOrder(OnBlock(r, block))
    {
      if block.Some? { RenamedInOrder(r, block.value); }
    }
    if m.peerDependenciesMeta.Some? { RenamedMetaInOrder(r, m.peerDependenciesMeta.value); }
  }

  lemma {:induction false} PublishConfigIsNoBlock<J>(m: Manifest<J>)
    ensures !NamesBlock(m, PUBLISH_CONFIG) && IsPart(PUBLISH_CONFIG)
  {
    assert |PUBLISH_CONFIG| == 13;
  }

  lemma {:induction false} HoistedNamesMatch<J>(isObject: J -> bool, m: Manifest<J>, name: string)
    requires WellFormed(isObject, m) && Hoists(m)
    ensures name in WithHoisting(m).names <==> NamesField(WithHoisting(m), name)
    ensures name in WithHoisting(m).rest ==> !IsPart(name)
  {
    hide InOrder, NamesInOrder, Hoisted, HoistedNames, Unhoisted, HasOverridable, Deleted, BlockInOrder, NamesBlock,
         OverridableKeys, Overridable, IsPart;
    var fields := m.publishConfig.fields;
    HoistedNamesInOrder(m.rest, m.names, fields);
    DeletedInOrder(HoistedNames(m.names, fields), PUBLISH_CONFIG);
    PublishConfigIsNoBlock(m);
    OverridableKeysArePlain(fields, name);
    SameBlocks(m, WithHoisting(m), name);
    assert name in HoistedNames(m.names, fields) <==> name in Elements(HoistedNames(m.names, fields));
    assert name in m.names <==> name in Elements(m.names);
  }

  lemma {:induction false} OverridableKeysArePlain<J>(fields: Block<J>, key: string)
    ensures key in OverridableKeys(fields) ==> !IsPart(key)
  {
    if key in OverridableKeys(fields) { OverridableIsPlain(key); }
  }

  lemma SameBlocks<J>(m: Manifest<J>, m': Manifest<J>, name: string)
    requires m.dependencies == m'.dependencies && m.devDependencies == m'.devDependencies
    requires m.peerDependencies == m'.peerDependencies && m.peerDependenciesMeta == m'.peerDependenciesMeta
    requires m.optionalDependencies == m'.optionalDependencies
    ensures NamesBlock(m, name) == NamesBlock(m', name)
  {
  }

  lemma {:induction false} HoistingWellFormed<J>(isObject: J -> bool, m: Manifest<J>)
    requires WellFormed(isObject, m)
    ensures WellFormed(isObject, WithHoisting(m))
  {
    if Hoists(m) {
      var fields := m.publishConfig.fields;
      UnhoistedInOrder(fields);
      HoistedNamesInOrder(m.rest, m.names, fields);
      DeletedInOrder(HoistedNames(m.names, fields), PUBLISH_CONFIG);
      hide InOrder, NamesInOrder, Hoisted, HoistedNames, Unhoisted, HasOverridable, Deleted, BlockInOrder, NamesField;
      forall name
        ensures name in WithHoisting(m).names <==> NamesField(WithHoisting(m), name)
        ensures name in WithHoisting(m).rest ==> !IsPart(name)
      {
        HoistedNamesMatch(isObject, m, name);
      }
    }
  }

  // ----- the file

  /** JSON reading and writing, and which values are objects. */
  datatype Codec<!J> = Codec(
    parse: string -> Option<Manifest<J>>,
    write: Manifest<J> -> string,
    isObject: J -> bool)

  /** What is read is well formed, and every well-formed manifest is read back as written. */
  ghost predicate RoundTrips<J(!new)>(c: Codec<J>) {
    && (forall text :: c.parse(text).Some? ==> WellFormed(c.isObject, c.parse(text).value))
    && (forall m :: WellFormed(c.isObject, m) ==> c.parse(c.write(m)) == Some(m))
  }

  /** Both rewrites of a manifest that was read are read back as written. */
  lemma {:induction false} RewritesReadBack<J(!new)>(c: Codec<J>, r: Release, text: string)
    requires RoundTrips(c) && c.parse(text).Some?
    ensures var once := WithVersions(r, c.parse(text).value);
      && c.parse(c.write(once)) == Some(once) && c.parse(c.write(WithHoisting(once))) == Some(WithHoisting(once))
  {
    hide WellFormed, WithVersions, WithHoisting;
    VersionsWellFormed(c.isObject, r, c.parse(text).value);
    HoistingWellFormed(c.isObject, WithVersions(r, c.parse(text).value));
  }

  method RenameIfPresent(r: Release, block: Option<Block<string>>) returns (result: Option<Block<string>>)
    ensures result == OnBlock(r, block)
  {
    if block.None? { return None; }
    var renamed := RenameDepBlock(r, block.value);
    result := Some(renamed);
  }

  /** How one package's pack ends. */
  datatype PackOutcome = Unreadable | PackThrew(manifest: string) | Packed(manifest: string)

  /** What a rewrite hands back to undo it. */
  datatype Undo = Nothing | WriteBack(text: string)

  function Undone(undo: Undo, text: string): string { if undo.Nothing? then text else undo.text }

  class PackageFile {
    var text: string

    constructor (text: string)
      ensures this.text == text
    {
      this.text := text;
    }

    /** Writes the resolved manifest when its text differs; throws on unreadable JSON. */
    method ApplyWorkspaceVersions<J(==)>(c: Codec<J>, r: Release) returns (undo: Option<Undo>)
      modifies this
      ensures undo.None? <==> c.parse(old(text)).None?
      ensures undo.None? ==> text == old(text)
      ensures undo.Some? ==> text == c.write(WithVersions(r, c.parse(old(text)).value))
                             && undo.value == if text == old(text) then Nothing else WriteBack(old(text))
    {
      var original := text;
      var parsed := c.parse(original);
      if parsed.None? { return None; }
      var m := parsed.value;
      var dependencies := RenameIfPresent(r, m.dependencies);
      var devDependencies := RenameIfPresent(r, m.devDependencies);
      var peerDependencies := m.peerDependencies;
      if peerDependencies.Some? {
        var peers := RenamePeerDepBlock(r, peerDependencies.value);
        peerDependencies := Some(peers);
      }
      var peerDependenciesMeta := m.peerDependenciesMeta;
      if peerDependenciesMeta.Some? {
        var meta := RenamePeerMetaBlock(r, peerDependenciesMeta.value);
        peerDependenciesMeta := Some(meta);
      }
      var optionalDependencies := RenameIfPresent(r, m.optionalDependencies);
      var next := c.write(Manifest(dependencies, devDependencies, peerDependencies, peerDependenciesMeta,
                                   optionalDependencies, m.publishConfig, m.rest, m.names));
      if next != original {
        text := next;
        return Some(WriteBack(original));
      }
      undo := Some(Nothing);
    }

    /** Writes the hoisted manifest when there is something to hoist. */
    method ApplyPublishConfig<J(==)>(c: Codec<J>) returns (undo: Option<Undo>)
      modifies this
      ensures undo.None? <==> c.parse(old(text)).None?
      ensures undo.None? ==> text == old(text)
      ensures undo.Some? ==>
        var m := c.parse(old(text)).value;
        if Hoists(m) then text == c.write(WithHoisting(m)) && undo.value == WriteBack(old(text))
        else text == old(text) && undo.value == Nothing
    {
      var original := text;
      var parsed := c.parse(original);
      if parsed.None? { return None; }
      var m := parsed.value;
      if !m.publishConfig.Fields? { return Some(Nothing); }
      var top, names, left, mutated := HoistFields(m.rest, m.names, m.publishConfig.fields);
      if !mutated { return Some(Nothing); }
      text := c.write(WithFields(m, top, names, left));
      undo := Some(WriteBack(original));
    }

    method Restore(undo: Undo)
      modifies this
      ensures text == Undone(undo, old(text))
    {
      if undo.WriteBack? { text := undo.text; }
    }

    /** The apply, apply, pack, restore, restore bracket packs the rewritten manifest and leaves the
        file as it was, whether packing succeeds or throws and whichever rewrites changed nothing. */
    method PackBracket<J(==, !new)>(c: Codec<J>, r: Release, packSucceeds: bool) returns (outcome: PackOutcome)
      requires RoundTrips(c)
      modifies this
      ensures text == old(text)
      ensures var m := c.parse(old(text));
        if m.None? then outcome == Unreadable
        else
          var packed := c.write(WithHoisting(WithVersions(r, m.value)));
          outcome == if packSucceeds then Packed(packed) else PackThrew(packed)
    {
      hide RoundTrips, WithVersions, WithFields, Hoists;
      if c.parse(text).Some? { RewritesReadBack(c, r, text); }
      var undoVersions := ApplyWorkspaceVersions(c, r);
      if undoVersions.None? { return Unreadable; }
      var undoConfig := ApplyPublishConfig(c);
      outcome := if packSucceeds then Packed(text) else PackThrew(text);
      Restore(undoConfig.value);
      Restore(undoVersions.value);
    }

    /** `--prepare-only`: both rewrites, left in place. */
    method Prepare<J(==, !new)>(c: Codec<J>, r: Release) returns (ok: bool)
      requires RoundTrips(c)
      modifies this
      ensures ok <==> c.parse(old(text)).Some?
      ensures text == Prepared(c, r, old(text))
    {
      hide RoundTrips, WithVersions, WithFields, Hoists;
      if c.parse(text).Some? { RewritesReadBack(c, r, text); }
      var undo := ApplyWorkspaceVersions(c, r);
      if undo.None? { return false; }
      var again := ApplyPublishConfig(c);
      ok := true;
    }
  }

  function Prepared<J>(c: Codec<J>, r: Release, text: string): string {
    var m := c.parse(text);
    if m.None? then text else c.write(WithHoisting(WithVersions(r, m.value)))
  }

  /** Preparing twice is preparing once. */
  lemma {:induction false} PreparingTwice<J(!new)>(c: Codec<J>, r: Release, text: string)
    requires RoundTrips(c)
    ensures Prepared(c, r, Prepared(c, r, text)) == Prepared(c, r, text)
  {
    if c.parse(text).Some? {
      PreparedIsFixed(r, c.parse(text).value);
      RewritesReadBack(c, r, text);
    }
  }

  /** Restoring in the order of application instead puts the original back exactly when at most
      one of the rewrites wrote the file. */
  lemma {:induction false} SwappedRestoreFailsExactlyWhenBothWrote<J(!new)>(c: Codec<J>, r: Release, text: string)
    requires RoundTrips(c) && c.parse(text).Some?
    ensures var once := c.write(WithVersions(r, c.parse(text).value));
      && c.parse(once).Some?
      && var second := c.parse(once).value;
      var undoVersions := if once == text then Nothing else WriteBack(text);
      var undoConfig := if Hoists(second) then WriteBack(once) else Nothing;
      var final := if Hoists(second) then c.write(WithHoisting(second)) else once;
      && Undone(undoVersions, Undone(undoConfig, final)) == text
      && (Undone(undoConfig, Undone(undoVersions, final)) == text <==> once == text || !Hoists(c.parse(text).value))
  {
    RewritesReadBack(c, r, text);
  }
}
