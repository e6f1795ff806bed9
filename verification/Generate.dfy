/** Generating the schemas of all requested packages. */
module Generate {
  import opened Prelude
  import opened PackageNames
  import opened PackageIds
  import opened Order
  import opened Wit
  import opened Descriptors
  import opened Collect
  import opened Schema
  import opened Build
  import opened SchemaFaults
  import opened Package

  // ----- what is generated -----

  /** The requested files of one package. */
  ghost function PathsOf(r: Registry, paths: set<string>, package: FullName): set<string> {
    set p | p in paths && p in r.files && r.files[p].package == package
  }

  function SchemaBelow(a: WitSchema, b: WitSchema): bool {
    if a.path == b.path then Below(a.protoPackage, b.protoPackage) else Below(a.path, b.path)
  }

  /** One schema for each package of the requested files, in the order of their paths. */
  ghost predicate IsOutput(r: Registry, paths: set<string>, schemas: seq<WitSchema>) {
    && paths <= r.files.Keys
    && (forall p :: p in paths ==> HasSchema(schemas, r.files[p].package))
    && (forall k :: 0 <= k < |schemas| ==> Owed(r, paths, schemas[k]))
    && (forall j, k :: 0 <= j < k < |schemas| ==> schemas[j].protoPackage != schemas[k].protoPackage)
    && SortedBy(schemas, SchemaBelow)
  }

  ghost predicate HasSchema(schemas: seq<WitSchema>, package: FullName) {
    exists k :: 0 <= k < |schemas| && schemas[k].protoPackage == package
  }

  /** The schema of a requested package. */
  ghost predicate Owed(r: Registry, paths: set<string>, schema: WitSchema) {
    var own := PathsOf(r, paths, schema.protoPackage);
    own != {} && IsSchemaOf(r, schema.protoPackage, own, schema)
  }

  lemma SchemasOrder(schemas: seq<WitSchema>)
    requires forall j, k :: 0 <= j < k < |schemas| ==> schemas[j].protoPackage != schemas[k].protoPackage
    ensures Orders(SchemaBelow, schemas)
  {
    forall a: WitSchema, b: WitSchema
      ensures SchemaBelow(a, b) || SchemaBelow(b, a)
      ensures SchemaBelow(a, b) && SchemaBelow(b, a) ==> a.protoPackage == b.protoPackage
    {
      BelowTotal(a.path, b.path);
      BelowTotal(a.protoPackage, b.protoPackage);
    }
    forall a, b | a in schemas && b in schemas && SchemaBelow(a, b) && SchemaBelow(b, a)
      ensures a == b
    {
      var j :| 0 <= j < |schemas| && schemas[j] == a;
      var k :| 0 <= k < |schemas| && schemas[k] == b;
    }
    forall a: WitSchema, b: WitSchema, d: WitSchema | SchemaBelow(a, b) && SchemaBelow(b, d)
      ensures SchemaBelow(a, d)
    {
      SchemaBelowTransitive(a, b, d);
    }
  }

  lemma SchemaBelowTransitive(a: WitSchema, b: WitSchema, d: WitSchema)
    requires SchemaBelow(a, b) && SchemaBelow(b, d)
    ensures SchemaBelow(a, d)
  {
    if a.path == b.path == d.path {
      BelowTransitive(a.protoPackage, b.protoPackage, d.protoPackage);
    } else if a.path != b.path && b.path != d.path {
      BelowTransitive(a.path, b.path, d.path);
      BelowTotal(a.path, b.path);
    }
  }

  lemma OutputIncludes(r: Registry, paths: set<string>, schemas: seq<WitSchema>, others: seq<WitSchema>)
    requires IsOutput(r, paths, schemas) && IsOutput(r, paths, others)
    ensures forall s :: s in schemas ==> s in others
  {
  }

  /** The output depends on nothing but the set of requested files: their order and repetitions are forgotten. */
  lemma OutputUnique(r: Registry, paths: set<string>, schemas: seq<WitSchema>, others: seq<WitSchema>)
    requires IsOutput(r, paths, schemas) && IsOutput(r, paths, others)
    ensures schemas == others
  {
    OutputIncludes(r, paths, schemas, others);
    OutputIncludes(r, paths, others, schemas);
    var all := set s | s in schemas;
    DistinctMultiset(schemas, all);
    DistinctMultiset(others, all);
    SchemasOrder(schemas);
    SortedUnique(schemas, others, SchemaBelow);
  }

  /** The schemas stand in the order of their paths, and each path names the directory of its package. */
  lemma OutputOrdered(r: Registry, paths: set<string>, schemas: seq<WitSchema>, j: nat, k: nat)
    requires IsOutput(r, paths, schemas) && j < k < |schemas|
    ensures Below(schemas[j].path, schemas[k].path)
  {
    BelowTotal(schemas[j].path, schemas[k].path);
  }

  lemma PathNamesPackage(r: Registry, package: FullName, paths: set<string>, schema: WitSchema)
    returns (directory: string)
    requires IsSchemaOf(r, package, paths, schema)
    ensures schema.path == directory + "/messages.wit" && ReadId(directory, '/') == Some(package)
    ensures ReadId(schema.packageId.ToString(), ':') == Some(package)
  {
    directory := schema.packageId.OutputDirectory();
    DirectoryReads(package);
    IdReads(package);
  }

  // ----- grouping the files -----

  datatype GenerateError =
    | UnsupportedParameter(detail: string)
    | UnknownFile(path: string)
    | Refused(error: BuildError)
    | PackageCollision(package: FullName, owner: FullName)
    | PathCollision(package: FullName, owner: FullName)

  type Groups = map<FullName, seq<string>>

  function GroupOf(groups: Groups, package: FullName): seq<string> {
    if package in groups then groups[package] else []
  }

  /** Every listed package has files, and the files of a package are its own among `paths`. */
  ghost predicate Grouped(r: Registry, groups: Groups, paths: set<string>) {
    && paths <= r.files.Keys
    && (forall package :: package in groups ==> groups[package] != [])
    && (forall package :: SetOf(GroupOf(groups, package)) == PathsOf(r, paths, package))
  }

  lemma GroupedOneMore(r: Registry, groups: Groups, paths: set<string>, path: string)
    requires Grouped(r, groups, paths) && path in r.files
    ensures var package := r.files[path].package;
            Grouped(r, groups[package := GroupOf(groups, package) + [path]], paths + {path})
  {
    var owner := r.files[path].package;
    var after := groups[owner := GroupOf(groups, owner) + [path]];
    forall package
      ensures SetOf(GroupOf(after, package)) == PathsOf(r, paths + {path}, package)
    {
      assert package != owner ==> GroupOf(after, package) == GroupOf(groups, package);
      forall p
        ensures p in GroupOf(after, package) <==> p in PathsOf(r, paths + {path}, package)
      {
        assert p in SetOf(GroupOf(groups, package)) <==> p in PathsOf(r, paths, package);
      }
    }
  }

  method GroupByPackage(r: Registry, requestedPaths: seq<string>) returns (grouped: Result<Groups, GenerateError>)
    ensures grouped.Ok? <==> SetOf(requestedPaths) <= r.files.Keys
    ensures grouped.Ok? ==> Grouped(r, grouped.value, SetOf(requestedPaths))
    ensures grouped.Err? ==>
              grouped.error.UnknownFile? && grouped.error.path in requestedPaths && grouped.error.path !in r.files
  {
    var filesByPackage: Groups := map[];
    var seenPaths: set<string> := {};
    for i := 0 to |requestedPaths|
      invariant seenPaths == SetOf(requestedPaths[..i])
      invariant Grouped(r, filesByPackage, seenPaths)
    {
      var requestedPath := requestedPaths[i];
      assert requestedPaths[..i + 1] == requestedPaths[..i] + [requestedPath];
      assert SetOf(requestedPaths[..i + 1]) == seenPaths + {requestedPath};
      if requestedPath in seenPaths {
        continue;
      }
      seenPaths := seenPaths + {requestedPath};
      if requestedPath !in r.files {
        assert requestedPath in SetOf(requestedPaths);
        return Err(UnknownFile(requestedPath));
      }
      GroupedOneMore(r, filesByPackage, seenPaths - {requestedPath}, requestedPath);
      assert seenPaths - {requestedPath} + {requestedPath} == seenPaths;
      var package := r.files[requestedPath].package;
      filesByPackage := filesByPackage[package := GroupOf(filesByPackage, package) + [requestedPath]];
    }
    assert requestedPaths[..|requestedPaths|] == requestedPaths;
    return Ok(filesByPackage);
  }

  /** The packages of the groups, in order. */
  method SortedPackages(groups: Groups) returns (packages: seq<FullName>)
    ensures forall p :: p in packages <==> p in groups
    ensures forall j, k :: 0 <= j < k < |packages| ==> packages[j] != packages[k]
    ensures SortedBy(packages, Below)
  {
    var unordered: seq<FullName> := [];
    var remaining := groups.Keys;
    while remaining != {}
      invariant remaining <= groups.Keys
      invariant forall p :: p in unordered <==> p in groups.Keys - remaining
      invariant forall j, k :: 0 <= j < k < |unordered| ==> unordered[j] != unordered[k]
      decreases remaining
    {
      var p :| p in remaining;
      assert p !in unordered;
      unordered := unordered + [p];
      remaining := remaining - {p};
    }
    packages := Sort(unordered, Below);
    SortBelow(unordered);
    forall p
      ensures p in packages <==> p in unordered
    {
      SortMembers(unordered, Below, p);
    }
    RearrangedDistinct(unordered, packages);
  }

  lemma RearrangedDistinct<T>(s: seq<T>, t: seq<T>)
    requires multiset(s) == multiset(t) && forall j, k :: 0 <= j < k < |s| ==> s[j] != s[k]
    ensures forall j, k :: 0 <= j < k < |t| ==> t[j] != t[k]
  {
    DistinctMultiset(s, set x | x in s);
    forall j, k | 0 <= j < k < |t|
      ensures t[j] != t[k]
    {
      assert t == t[..j] + [t[j]] + t[j + 1..k] + [t[k]] + t[k + 1..];
      assert multiset(t)[t[j]] <= 1;
    }
  }

  // ----- building them -----

  /** The schemas of the first `n` packages. */
  ghost predicate BuiltFor(r: Registry, paths: set<string>, packages: seq<FullName>, n: nat, schemas: seq<WitSchema>) {
    && |schemas| == n <= |packages|
    && forall k :: 0 <= k < n ==> schemas[k].protoPackage == packages[k] && Owed(r, paths, schemas[k])
  }

  /** The owners of names and paths are those of the schemas built so far. */
  ghost predicate Owners(schemas: seq<WitSchema>, packageOwners: map<string, FullName>,
                         pathOwners: map<string, FullName>)
  {
    && (forall name :: name in packageOwners ==>
          exists k :: 0 <= k < |schemas| && schemas[k].packageId.ToString() == name
                      && schemas[k].protoPackage == packageOwners[name])
    && (forall path :: path in pathOwners ==>
          exists k :: 0 <= k < |schemas| && schemas[k].path == path && schemas[k].protoPackage == pathOwners[path])
  }

  lemma OwnersOneMore(schemas: seq<WitSchema>, packageOwners: map<string, FullName>, pathOwners: map<string, FullName>,
                      next: WitSchema)
    requires Owners(schemas, packageOwners, pathOwners)
    ensures Owners(schemas + [next], packageOwners[next.packageId.ToString() := next.protoPackage],
                   pathOwners[next.path := next.protoPackage])
  {
    var all := schemas + [next];
    assert all[|schemas|] == next && forall k :: 0 <= k < |schemas| ==> all[k] == schemas[k];
  }

  /** Schemas of different packages have different names and paths. */
  lemma NoCollision(r: Registry, paths: set<string>, s: WitSchema, t: WitSchema)
    requires Owed(r, paths, s) && Owed(r, paths, t)
    requires s.packageId.ToString() == t.packageId.ToString() || s.path == t.path
    ensures s.protoPackage == t.protoPackage
  {
    if s.path == t.path {
      var a, b := s.packageId.OutputDirectory(), t.packageId.OutputDirectory();
      assert s.path == a + "/messages.wit" && t.path == b + "/messages.wit";
      assert |a| == |b|;
      assert a == s.path[..|a|] == b;
      OutputDirectoryInjective(s.protoPackage, t.protoPackage);
    } else {
      PackageIdInjective(s.protoPackage, t.protoPackage);
    }
  }

  /** A name or path that is taken is taken by the same package. */
  lemma Unowned(r: Registry, paths: set<string>, packages: seq<FullName>, n: nat, schemas: seq<WitSchema>,
                packageOwners: map<string, FullName>, pathOwners: map<string, FullName>, schema: WitSchema)
    requires BuiltFor(r, paths, packages, n, schemas) && Owed(r, paths, schema)
    requires Owners(schemas, packageOwners, pathOwners)
    ensures OwnerOf(packageOwners, schema.packageId.ToString(), schema.protoPackage) == schema.protoPackage
    ensures OwnerOf(pathOwners, schema.path, schema.protoPackage) == schema.protoPackage
  {
    var name := schema.packageId.ToString();
    if name in packageOwners {
      var k :| 0 <= k < |schemas| && schemas[k].packageId.ToString() == name
               && schemas[k].protoPackage == packageOwners[name];
      NoCollision(r, paths, schemas[k], schema);
    }
    if schema.path in pathOwners {
      var k :| 0 <= k < |schemas| && schemas[k].path == schema.path
        && schemas[k].protoPackage == pathOwners[schema.path];
      NoCollision(r, paths, schemas[k], schema);
    }
  }

  lemma BuiltOneMore(r: Registry, paths: set<string>, packages: seq<FullName>, n: nat, schemas: seq<WitSchema>,
                     schema: WitSchema)
    requires BuiltFor(r, paths, packages, n, schemas) && n < |packages|
    requires schema.protoPackage == packages[n] && Owed(r, paths, schema)
    ensures BuiltFor(r, paths, packages, n + 1, schemas + [schema])
  {
  }

  /** The owner of a key, or the claimant. */
  function OwnerOf(owners: map<string, FullName>, key: string, claimant: FullName): FullName {
    if key in owners then owners[key] else claimant
  }

  ghost predicate HasOutput(r: Registry, paths: set<string>) {
    exists schemas :: IsOutput(r, paths, schemas)
  }

  /** The error names a fault of a requested package. */
  ghost predicate RequestFault(r: Registry, paths: set<string>, e: SchemaError) {
    exists package :: PathsOf(r, paths, package) != {} && Fault(r, package, PathsOf(r, paths, package), e)
  }

  method BuildGroup(r: Registry, ghost paths: set<string>, groups: Groups, package: FullName)
      returns (built: Result<WitSchema, BuildError>)
    requires Linked(r) && Grouped(r, groups, paths) && package in groups
    ensures built.Ok? ==> built.value.protoPackage == package && Owed(r, paths, built.value)
    ensures built.Err? ==> !HasOutput(r, paths) && built.error.Unsupported?
    ensures built.Err? && built.error.Unsupported? ==>
              Fault(r, package, PathsOf(r, paths, package), built.error.error)
  {
    GroupKnown(r, groups, paths, package);
    built := BuildSchema(r, groups[package]);
    if built.Err? {
      NoOutput(r, groups, paths, package);
    } else {
      BuiltIsOwed(r, groups, paths, package, built.value);
    }
  }

  method BuildAll(r: Registry, ghost paths: set<string>, groups: Groups, protoPackages: seq<FullName>)
      returns (built: Result<seq<WitSchema>, GenerateError>)
    requires Linked(r) && Grouped(r, groups, paths)
    requires forall j :: 0 <= j < |protoPackages| ==> protoPackages[j] in groups
    ensures built.Ok? ==> BuiltFor(r, paths, protoPackages, |protoPackages|, built.value)
    ensures built.Err? ==> !HasOutput(r, paths)
    ensures built.Err? ==> built.error.Refused? && built.error.error.Unsupported?
                           && RequestFault(r, paths, built.error.error.error)
  {
    var schemas: seq<WitSchema> := [];
    var packageOwners: map<string, FullName> := map[];
    var pathOwners: map<string, FullName> := map[];
    for i := 0 to |protoPackages|
      invariant BuiltFor(r, paths, protoPackages, i, schemas)
      invariant Owners(schemas, packageOwners, pathOwners)
    {
      var schema := BuildGroup(r, paths, groups, protoPackages[i]);
      if schema.Err? {
        GroupKnown(r, groups, paths, protoPackages[i]);
        assert groups[protoPackages[i]][0] in SetOf(groups[protoPackages[i]]);
        return Err(Refused(schema.error));
      }
      Unowned(r, paths, protoPackages, i, schemas, packageOwners, pathOwners, schema.value);
      OwnersOneMore(schemas, packageOwners, pathOwners, schema.value);
      BuiltOneMore(r, paths, protoPackages, i, schemas, schema.value);
      var protoPackage := schema.value.protoPackage;
      var packageOwner := OwnerOf(packageOwners, schema.value.packageId.ToString(), protoPackage);
      if packageOwner != protoPackage {
        return Err(PackageCollision(protoPackage, packageOwner));
      }
      packageOwners := packageOwners[schema.value.packageId.ToString() := protoPackage];
      var pathOwner := OwnerOf(pathOwners, schema.value.path, protoPackage);
      if pathOwner != protoPackage {
        return Err(PathCollision(protoPackage, pathOwner));
      }
      pathOwners := pathOwners[schema.value.path := protoPackage];
      schemas := schemas + [schema.value];
    }
    return Ok(schemas);
  }

  lemma GroupKnown(r: Registry, groups: Groups, paths: set<string>, package: FullName)
    requires Grouped(r, groups, paths) && package in groups
    ensures groups[package] != [] && SetOf(groups[package]) == PathsOf(r, paths, package)
    ensures forall j :: 0 <= j < |groups[package]| ==> groups[package][j] in r.files
    ensures SamePackage(r, groups[package])
    ensures forall p :: p in groups[package] ==> p in r.files && r.files[p].package == package
  {
    assert GroupOf(groups, package) == groups[package];
    forall p | p in groups[package]
      ensures p in r.files && r.files[p].package == package
    {
      assert p in SetOf(groups[package]);
    }
  }

  lemma BuiltIsOwed(r: Registry, groups: Groups, paths: set<string>, package: FullName, schema: WitSchema)
    requires Grouped(r, groups, paths) && package in groups && IsBuilt(r, groups[package], schema)
    ensures schema.protoPackage == package && Owed(r, paths, schema)
  {
    GroupKnown(r, groups, paths, package);
    assert groups[package][0] in groups[package];
    assert groups[package][0] in SetOf(groups[package]);
  }

  lemma NoOutput(r: Registry, groups: Groups, paths: set<string>, package: FullName)
    requires Grouped(r, groups, paths) && package in groups && forall schema :: !IsBuilt(r, groups[package], schema)
    ensures !HasOutput(r, paths)
  {
    GroupKnown(r, groups, paths, package);
    var p := groups[package][0];
    assert p in SetOf(groups[package]);
    forall schemas: seq<WitSchema>
      ensures !IsOutput(r, paths, schemas)
    {
      if HasSchema(schemas, package) {
        var k :| 0 <= k < |schemas| && schemas[k].protoPackage == package;
        NotOwed(r, groups, paths, package, schemas[k]);
      }
    }
  }

  lemma NotOwed(r: Registry, groups: Groups, paths: set<string>, package: FullName, schema: WitSchema)
    requires Grouped(r, groups, paths) && package in groups && schema.protoPackage == package
    requires !IsBuilt(r, groups[package], schema)
    ensures !Owed(r, paths, schema)
  {
    GroupKnown(r, groups, paths, package);
  }

  // ----- the generator -----

  /** What the schemas, in any order, make up. */
  ghost predicate Answers(r: Registry, paths: set<string>, schemas: seq<WitSchema>) {
    && (forall p :: p in paths && p in r.files ==> HasSchema(schemas, r.files[p].package))
    && (forall k :: 0 <= k < |schemas| ==> Owed(r, paths, schemas[k]))
    && (forall j, k :: 0 <= j < k < |schemas| ==> schemas[j].protoPackage != schemas[k].protoPackage)
  }

  lemma SchemaKept(schemas: seq<WitSchema>, sorted: seq<WitSchema>, package: FullName)
    requires HasSchema(schemas, package) && multiset(schemas) == multiset(sorted)
    ensures HasSchema(sorted, package)
  {
    var k :| 0 <= k < |schemas| && schemas[k].protoPackage == package;
    assert schemas[k] in multiset(sorted);
    var j :| 0 <= j < |sorted| && sorted[j] == schemas[k];
  }

  lemma OwedKept(r: Registry, paths: set<string>, schemas: seq<WitSchema>, sorted: seq<WitSchema>, k: nat)
    requires (forall j :: 0 <= j < |schemas| ==> Owed(r, paths, schemas[j])) && multiset(schemas) == multiset(sorted)
    requires k < |sorted|
    ensures Owed(r, paths, sorted[k])
  {
    assert sorted[k] in multiset(schemas);
    var j :| 0 <= j < |schemas| && schemas[j] == sorted[k];
  }

  lemma AnswersSorted(r: Registry, paths: set<string>, schemas: seq<WitSchema>)
    requires Answers(r, paths, schemas) && paths <= r.files.Keys
    ensures IsOutput(r, paths, Sort(schemas, SchemaBelow))
  {
    var sorted := Sort(schemas, SchemaBelow);
    SchemasOrder(schemas);
    SortSorted(schemas, SchemaBelow);
    SortedPackagesDiffer(schemas, sorted);
    forall p | p in paths
      ensures HasSchema(sorted, r.files[p].package)
    {
      SchemaKept(schemas, sorted, r.files[p].package);
    }
    forall k | 0 <= k < |sorted|
      ensures Owed(r, paths, sorted[k])
    {
      OwedKept(r, paths, schemas, sorted, k);
    }
  }

  lemma AllAnswered(r: Registry, paths: set<string>, groups: Groups, packages: seq<FullName>, schemas: seq<WitSchema>)
    requires Grouped(r, groups, paths) && (forall p :: p in packages <==> p in groups)
    requires forall j, k :: 0 <= j < k < |packages| ==> packages[j] != packages[k]
    requires BuiltFor(r, paths, packages, |packages|, schemas)
    ensures Answers(r, paths, schemas)
  {
    forall p | p in paths && p in r.files
      ensures HasSchema(schemas, r.files[p].package)
    {
      PackageBuilt(r, paths, groups, packages, schemas, p);
    }
  }

  lemma PackageBuilt(r: Registry, paths: set<string>, groups: Groups, packages: seq<FullName>, schemas: seq<WitSchema>,
                     p: string)
    requires Grouped(r, groups, paths) && (forall q :: q in packages <==> q in groups) && p in paths
    requires BuiltFor(r, paths, packages, |packages|, schemas)
    ensures HasSchema(schemas, r.files[p].package)
  {
    var package := r.files[p].package;
    assert p in PathsOf(r, paths, package) && p in SetOf(GroupOf(groups, package));
    var k :| 0 <= k < |packages| && packages[k] == package;
    assert schemas[k].protoPackage == package;
  }

  lemma SortedPackagesDiffer(schemas: seq<WitSchema>, sorted: seq<WitSchema>)
    requires multiset(schemas) == multiset(sorted)
    requires forall j, k :: 0 <= j < k < |schemas| ==> schemas[j].protoPackage != schemas[k].protoPackage
    ensures forall j, k :: 0 <= j < k < |sorted| ==> sorted[j].protoPackage != sorted[k].protoPackage
  {
    RearrangedDistinct(schemas, sorted);
    forall j, k | 0 <= j < k < |sorted|
      ensures sorted[j].protoPackage != sorted[k].protoPackage
    {
      assert sorted[j] in multiset(schemas) && sorted[k] in multiset(schemas);
      var a :| 0 <= a < |schemas| && schemas[a] == sorted[j];
      var b :| 0 <= b < |schemas| && schemas[b] == sorted[k];
    }
  }

  /** Generates one schema per package. It fails exactly when a parameter is given or there is no such output, and never
      because two packages share a name or a path. */
  method GenerateFiles(r: Registry, parameter: string, fileToGenerate: seq<string>)
      returns (generated: Result<seq<WitSchema>, GenerateError>)
    requires Linked(r)
    ensures generated.Ok? ==> parameter == "" && IsOutput(r, SetOf(fileToGenerate), generated.value)
    ensures generated.Err? && parameter == "" ==> !HasOutput(r, SetOf(fileToGenerate))
    ensures generated.Err? ==> !generated.error.PackageCollision? && !generated.error.PathCollision?
    ensures generated.Err? ==>
              match generated.error
              case UnsupportedParameter(detail) => parameter != "" && detail == parameter
              case UnknownFile(path) => parameter == "" && path in fileToGenerate && path !in r.files
              case Refused(error) => parameter == "" && error.Unsupported?
                                     && RequestFault(r, SetOf(fileToGenerate), error.error)
              case _ => false
  {
    if parameter != "" {
      return Err(UnsupportedParameter(parameter));
    }
    ghost var paths := SetOf(fileToGenerate);
    var requestedPaths := Sort(fileToGenerate, Below);
    forall p
      ensures p in requestedPaths <==> p in fileToGenerate
    {
      SortMembers(fileToGenerate, Below, p);
    }
    assert SetOf(requestedPaths) == paths;
    var groups := GroupByPackage(r, requestedPaths);
    if groups.Err? {
      return Err(groups.error);
    }
    var protoPackages := SortedPackages(groups.value);
    forall j | 0 <= j < |protoPackages|
      ensures protoPackages[j] in groups.value
    {
      assert protoPackages[j] in protoPackages;
    }
    var schemas := BuildAll(r, paths, groups.value, protoPackages);
    if schemas.Err? {
      return Err(schemas.error);
    }
    AllAnswered(r, paths, groups.value, protoPackages, schemas.value);
    AnswersSorted(r, paths, schemas.value);
    return Ok(Sort(schemas.value, SchemaBelow));
  }
}
