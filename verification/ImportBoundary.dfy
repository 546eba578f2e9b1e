/** Import resolution and the directional role rules of scripts/lint_subject_imports.py. */
module ImportBoundary {
  import opened Text
  import opened DottedNames

  const ROOT: string := "hpc_agent"

  // ---------- imports as the parser gives them ----------

  datatype Alias = Star | Named(name: string)

  /** Dotted names come as their segments; an absent module is the empty list. */
  datatype Import =
    | Plain(line: nat, names: seq<seq<string>>)
    | From(line: nat, level: nat, base: seq<string>, aliases: seq<Alias>)

  predicate WellFormed(i: Import) {
    match i
    case Plain(_, names) => forall k :: 0 <= k < |names| ==> names[k] != [] && Segments(names[k])
    case From(_, _, base, names) =>
      Segments(base) && forall k :: 0 <= k < |names| && names[k].Named? ==> Segments([names[k].name])
  }

  /** One module an import statement could bind. */
  datatype Bound<T> = Bound(line: nat, target: T)

  // ---------- resolution on segments (section 5.7 of the Python Language Reference) ----------

  /** The package a relative import starts from: one leading dot is the current package, each
      further dot one parent; None above the top. */
  function Anchor(package: seq<string>, level: nat): Option<seq<string>>
    requires level > 0
  {
    if level > |package| then None else Some(package[..|package| - (level - 1)])
  }

  function Target(i: Import, package: seq<string>): Option<seq<string>>
    requires i.From?
  {
    if i.level == 0 then (if i.base == [] then None else Some(i.base))
    else match Anchor(package, i.level)
      case None => None
      case Some(anchor) => Some(anchor + i.base)
  }

  function Submodules(line: nat, target: seq<string>, names: seq<Alias>): seq<Bound<seq<string>>> {
    if names == [] then []
    else (if names[0].Star? then [] else [Bound(line, target + [names[0].name])]) + Submodules(line, target, names[1..])
  }

  function Each(line: nat, names: seq<seq<string>>): seq<Bound<seq<string>>> {
    seq(|names|, k requires 0 <= k < |names| => Bound(line, names[k]))
  }

  /** Everything one import statement could bind. */
  function Resolve(i: Import, package: seq<string>): seq<Bound<seq<string>>> {
    match i
    case Plain(line, names) => Each(line, names)
    case From(line, _, _, names) =>
      match Target(i, package)
      case None => []
      case Some(target) => [Bound(line, target)] + Submodules(line, target, names)
  }

  function ResolveAll(imports: seq<Import>, package: seq<string>): seq<Bound<seq<string>>> {
    if imports == [] then []
    else ResolveAll(imports[..|imports| - 1], package) + Resolve(imports[|imports| - 1], package)
  }

  function Spelled(bounds: seq<Bound<seq<string>>>): seq<Bound<string>> {
    seq(|bounds|, k requires 0 <= k < |bounds| => Bound(bounds[k].line, Dots(bounds[k].target)))
  }

  /** The absolute spelling of an import; one that climbs above the top spells nothing. */
  function Absolute(i: Import, package: seq<string>): Import {
    match i
    case Plain(_, _) => i
    case From(line, level, _, aliases) =>
      match Target(i, package)
      case Some(target) => From(line, 0, target, aliases)
      case None => From(line, 0, [], aliases)
  }

  function AbsoluteAll(imports: seq<Import>, package: seq<string>): seq<Import> {
    seq(|imports|, k requires 0 <= k < |imports| => Absolute(imports[k], package))
  }

  lemma AbsoluteResolves(i: Import, package: seq<string>)
    requires package != []
    ensures Resolve(Absolute(i, package), package) == Resolve(i, package)
  {
  }

  /** A file binds the same modules, line by line, when every relative import is spelled out. */
  lemma {:induction false} SpellingDoesNotMatter(imports: seq<Import>, package: seq<string>)
    requires package != []
    ensures ResolveAll(AbsoluteAll(imports, package), package) == ResolveAll(imports, package)
  {
    if imports != [] {
      var n := |imports| - 1;
      SpellingDoesNotMatter(imports[..n], package);
      AbsoluteResolves(imports[n], package);
      assert AbsoluteAll(imports, package)[..n] == AbsoluteAll(imports[..n], package);
    }
  }

  lemma SpelledConcat(a: seq<Bound<seq<string>>>, b: seq<Bound<seq<string>>>)
    ensures Spelled(a + b) == Spelled(a) + Spelled(b)
  {
  }

  // ---------- laws of the relative-import rule ----------

  /** One leading dot stands for the package itself. */
  lemma OneDotIsThePackage(line: nat, base: seq<string>, names: seq<Alias>, package: seq<string>)
    requires package != []
    ensures Resolve(From(line, 1, base, names), package) == Resolve(From(line, 0, package + base, names), package)
  {
    assert package[..|package| - (1 - 1)] == package;
  }

  /** Each further dot stands for one parent more. */
  lemma OneMoreDotIsOneParentUp(line: nat, level: nat, base: seq<string>, names: seq<Alias>, package: seq<string>, last: string)
    requires level >= 1
    ensures Resolve(From(line, level + 1, base, names), package + [last]) == Resolve(From(line, level, base, names), package)
  {
    var longer := package + [last];
    if level <= |package| {
      assert longer[..|longer| - level] == package[..|package| - (level - 1)];
    }
  }

  /** An import resolves to nothing exactly when it climbs above the top, or names no module at all. */
  lemma ResolvesToNothing(line: nat, level: nat, base: seq<string>, names: seq<Alias>, package: seq<string>)
    ensures Resolve(From(line, level, base, names), package) == [] <==> level > |package| || (level == 0 && base == [])
  {
  }

  /** A resolved import binds the module, and below it every imported name but the star. */
  lemma ResolveBinds(line: nat, base: seq<string>, names: seq<Alias>, package: seq<string>, b: Bound<seq<string>>)
    requires base != []
    ensures b in Resolve(From(line, 0, base, names), package)
       <==> b.line == line && (b.target == base || exists name :: Named(name) in names && b.target == base + [name])
  {
    SubmodulesMember(line, base, names, b);
  }

  lemma {:induction false} SubmodulesMember(line: nat, target: seq<string>, names: seq<Alias>, b: Bound<seq<string>>)
    ensures b in Submodules(line, target, names)
       <==> b.line == line && exists name :: Named(name) in names && b.target == target + [name]
  {
    if names != [] {
      SubmodulesMember(line, target, names[1..], b);
      forall x: Alias ensures x in names <==> x == names[0] || x in names[1..] {}
      if b in Submodules(line, target, names) && names[0].Named? && b !in Submodules(line, target, names[1..]) {
        assert Named(names[0].name) in names;
      }
    }
  }

  /** A plain import binds the names it lists. */
  lemma PlainBinds(line: nat, names: seq<seq<string>>, package: seq<string>, b: Bound<seq<string>>)
    ensures b in Resolve(Plain(line, names), package) <==> b.line == line && b.target in names
  {
    if b.line == line && b.target in names {
      var k :| 0 <= k < |names| && names[k] == b.target;
      assert Each(line, names)[k] == b;
    }
  }

  // ---------- the script's collection over strings ----------

  /** `_iter_imports` */
  method IterImports(imports: seq<Import>, package: seq<string>) returns (out: seq<Bound<string>>)
    requires package != [] && Segments(package)
    requires forall k :: 0 <= k < |imports| ==> WellFormed(imports[k])
    ensures out == Spelled(ResolveAll(imports, package))
  {
    out := [];
    for n := 0 to |imports|
      invariant out == Spelled(ResolveAll(imports[..n], package))
    {
      assert imports[..n + 1][..n] == imports[..n];
      var found := Candidates(imports[n], package);
      SpelledConcat(ResolveAll(imports[..n], package), Resolve(imports[n], package));
      out := out + found;
    }
    assert imports[..|imports|] == imports;
  }

  /** The names one statement adds, joined with dots as the script does. */
  method Candidates(i: Import, package: seq<string>) returns (out: seq<Bound<string>>)
    requires package != [] && Segments(package) && WellFormed(i)
    ensures out == Spelled(Resolve(i, package))
  {
    match i
    case Plain(line, names) =>
      out := seq(|names|, k requires 0 <= k < |names| => Bound(line, Dots(names[k])));
    case From(line, level, base, names) =>
      var mod := Dots(base);
      if level > 0 {
        if level > |package| {
          return [];
        }
        var anchor := Dots(package[..|package| - (level - 1)]);
        if base != [] {
          DotsConcat(package[..|package| - (level - 1)], base);
        } else {
          assert package[..|package| - (level - 1)] + base == package[..|package| - (level - 1)];
        }
        mod := if base != [] then anchor + "." + mod else anchor;
      } else if base == [] {
        return [];
      }
      var more := AliasCandidates(line, Target(i, package).value, mod, names);
      out := [Bound(line, mod)] + more;
  }

  method AliasCandidates(line: nat, ghost target: seq<string>, mod: string, names: seq<Alias>) returns (out: seq<Bound<string>>)
    requires target != [] && mod == Dots(target)
    ensures out == Spelled(Submodules(line, target, names))
  {
    out := [];
    for k := 0 to |names|
      invariant out + Spelled(Submodules(line, target, names[k..])) == Spelled(Submodules(line, target, names))
    {
      ghost var before := out;
      SubmodulesStep(line, target, names, k);
      if names[k].Named? {
        out := out + [Bound(line, mod + "." + names[k].name)];
        DotsConcat(target, [names[k].name]);
        Associate(before, [Bound(line, mod + "." + names[k].name)], Spelled(Submodules(line, target, names[k + 1..])));
      }
    }
  }

  lemma SubmodulesStep(line: nat, target: seq<string>, names: seq<Alias>, k: nat)
    requires k < |names|
    ensures Spelled(Submodules(line, target, names[k..]))
         == (if names[k].Star? then [] else [Bound(line, Dots(target + [names[k].name]))])
          + Spelled(Submodules(line, target, names[k + 1..]))
  {
    var rest := names[k..];
    assert rest[0] == names[k] && rest[1..] == names[k + 1..];
    SpelledConcat(if names[k].Star? then [] else [Bound(line, target + [names[k].name])], Submodules(line, target, rest[1..]));
  }

  // ---------- the string tests against segments ----------

  predicate TargetsRole(mod: string, role: string) {
    mod == ROOT + "." + role || ROOT + "." + role + "." <= mod
  }

  /** `_imported_subject` */
  function ImportedSubject(mod: string, role: string): Option<string> {
    var prefix := ROOT + "." + role + ".";
    if mod == ROOT + "." + role || !(prefix <= mod) then None
    else if Top(mod[|prefix|..]) == "" then None else Some(Top(mod[|prefix|..]))
  }

  function RolePath(role: string): seq<string> {
    [ROOT, role]
  }

  lemma RolePathSpelling(role: string)
    ensures Dots(RolePath(role)) == ROOT + "." + role
    ensures Segments([role]) ==> Segments(RolePath(role))
  {
    assert RolePath(role)[1..] == [role];
  }

  /** The role test is prefix of segments. */
  lemma TargetsRoleIsPrefix(parts: seq<string>, role: string)
    requires parts != [] && Segments(parts) && Segments([role])
    ensures TargetsRole(Dots(parts), role) <==> ["hpc_agent", role] <= parts
  {
    RolePathSpelling(role);
    UnderIsSegmentPrefix(parts, RolePath(role));
  }

  /** The subject is the segment behind the role, if there is one. */
  lemma ImportedSubjectIsThirdSegment(parts: seq<string>, role: string)
    requires parts != [] && Segments(parts) && Segments([role])
    ensures ImportedSubject(Dots(parts), role)
         == if ["hpc_agent", role] < parts then Some(parts[2]) else None
  {
    TargetsRoleIsPrefix(parts, role);
    RolePathSpelling(role);
    DotsInjective(parts, RolePath(role));
    if RolePath(role) < parts {
      var rest := parts[2..];
      assert parts == RolePath(role) + rest;
      DotsConcat(RolePath(role), rest);
      assert Dots(parts)[|ROOT + "." + role + "."|..] == Dots(rest);
      TopOfDots(rest);
    }
  }

  // ---------- directional rules ----------

  /** The allowlist pairs a source file with a module prefix, in segments. */
  datatype Rule = Rule(targetRoles: seq<string>, allow: set<(string, seq<string>)>)

  predicate RuleOk(rule: Rule) {
    && (forall k :: 0 <= k < |rule.targetRoles| ==> Segments([rule.targetRoles[k]]))
    && forall a :: a in rule.allow ==> a.1 != [] && Segments(a.1)
  }

  /** `_dir_allowed`, over strings. */
  predicate DirAllowed(rule: Rule, source: string, mod: string) {
    exists a :: a in rule.allow && a.0 == source && Under(mod, Dots(a.1))
  }

  predicate Allowed(rule: Rule, source: string, parts: seq<string>) {
    exists a :: a in rule.allow && a.0 == source && a.1 <= parts
  }

  lemma DirAllowedIsAllowed(rule: Rule, source: string, parts: seq<string>)
    requires RuleOk(rule) && parts != [] && Segments(parts)
    ensures DirAllowed(rule, source, Dots(parts)) <==> Allowed(rule, source, parts)
  {
    forall a | a in rule.allow ensures Under(Dots(parts), Dots(a.1)) <==> a.1 <= parts {
      UnderIsSegmentPrefix(parts, a.1);
    }
  }

  /** `b` reaches into the role on that line. */
  predicate Reaches(b: Bound<seq<string>>, line: nat, role: string) {
    b.line == line && ["hpc_agent", role] <= b.target
  }

  /** The `k`th bound module breaks the rule in that role on that line: it reaches into the role outside
      the allowlist, where the bare role counts only when nothing more specific is bound on the line. */
  predicate Offends(bounds: seq<Bound<seq<string>>>, rule: Rule, source: string, line: nat, role: string, k: nat)
    requires k < |bounds|
  {
    && Reaches(bounds[k], line, role) && !Allowed(rule, source, bounds[k].target)
    && (bounds[k].target == RolePath(role) ==> OnlyBare(bounds, line, role))
  }

  /** Nothing on the line reaches below the role itself. */
  predicate OnlyBare(bounds: seq<Bound<seq<string>>>, line: nat, role: string) {
    forall j :: 0 <= j < |bounds| && Reaches(bounds[j], line, role) ==> bounds[j].target == RolePath(role)
  }

  /** Some module bound on the line breaks the rule in that role. */
  predicate Violates(bounds: seq<Bound<seq<string>>>, rule: Rule, source: string, line: nat, role: string) {
    role in rule.targetRoles && exists k :: 0 <= k < |bounds| && Offends(bounds, rule, source, line, role, k)
  }

  function FirstHit(roles: seq<string>, mod: string): Option<string> {
    if roles == [] then None
    else if TargetsRole(mod, roles[0]) then Some(roles[0])
    else FirstHit(roles[1..], mod)
  }

  type Groups = map<(nat, string), seq<string>>

  function Put(groups: Groups, key: (nat, string), mod: string): Groups {
    groups[key := (if key in groups then groups[key] else []) + [mod]]
  }

  /** The modules on a line that hit a role, in order: what the grouping dict holds. */
  function Hits(found: seq<Bound<string>>, roles: seq<string>, key: (nat, string)): seq<string> {
    if found == [] then []
    else
      var n := |found| - 1;
      Hits(found[..n], roles, key)
      + if found[n].line == key.0 && FirstHit(roles, found[n].target) == Some(key.1) then [found[n].target] else []
  }

  // ---------- facts about the groups ----------

  lemma {:induction false} HitsMember(found: seq<Bound<string>>, roles: seq<string>, key: (nat, string), mod: string)
    ensures mod in Hits(found, roles, key) <==>
              exists k :: 0 <= k < |found| && found[k] == Bound(key.0, mod) && FirstHit(roles, mod) == Some(key.1)
  {
    if found != [] {
      var n := |found| - 1;
      HitsMember(found[..n], roles, key, mod);
      if k :| 0 <= k < |found| && found[k] == Bound(key.0, mod) && FirstHit(roles, mod) == Some(key.1) {
        assert k < n ==> found[..n][k] == Bound(key.0, mod);
      }
    }
  }

  lemma {:induction false} FirstHitIs(roles: seq<string>, parts: seq<string>, role: string)
    requires parts != [] && Segments(parts) && forall k :: 0 <= k < |roles| ==> Segments([roles[k]])
    ensures FirstHit(roles, Dots(parts)) == Some(role) <==> role in roles && RolePath(role) <= parts
  {
    if roles != [] {
      TargetsRoleIsPrefix(parts, roles[0]);
      FirstHitIs(roles[1..], parts, role);
      if RolePath(roles[0]) <= parts && RolePath(role) <= parts {
        assert parts[1] == roles[0] == role;
      }
      assert forall r :: r in roles <==> r == roles[0] || r in roles[1..];
    }
  }

  lemma {:induction false} SpecificMember(modules: seq<string>, role: string, mod: string)
    ensures mod in Specific(modules, role) <==> mod in modules && mod != ROOT + "." + role
  {
    if modules != [] {
      SpecificMember(modules[1..], role, mod);
    }
  }

  lemma {:induction false} FirstForbiddenIs(modules: seq<string>, rule: Rule, source: string)
    ensures var r := FirstForbidden(modules, rule, source);
            && (r.Some? <==> exists m :: m in modules && !DirAllowed(rule, source, m))
            && (r.Some? ==> r.value in modules && !DirAllowed(rule, source, r.value))
  {
    if modules != [] {
      FirstForbiddenIs(modules[1..], rule, source);
    }
  }

  lemma JudgedMember(modules: seq<string>, role: string, mod: string)
    ensures mod in Judged(modules, role) <==>
              mod in modules && (mod == ROOT + "." + role ==> forall m :: m in modules ==> m == ROOT + "." + role)
  {
    forall m ensures m in Specific(modules, role) <==> m in modules && m != ROOT + "." + role {
      SpecificMember(modules, role, m);
    }
    if Specific(modules, role) != [] {
      assert Specific(modules, role)[0] in Specific(modules, role);
    }
  }

  ghost predicate AllSegments(bounds: seq<Bound<seq<string>>>) {
    forall k :: 0 <= k < |bounds| ==> bounds[k].target != [] && Segments(bounds[k].target)
  }

  lemma {:induction false} SubmodulesAreSegments(line: nat, target: seq<string>, names: seq<Alias>)
    requires target != [] && Segments(target)
    requires forall k :: 0 <= k < |names| && names[k].Named? ==> Segments([names[k].name])
    ensures AllSegments(Submodules(line, target, names))
  {
    if names != [] {
      SubmodulesAreSegments(line, target, names[1..]);
      if names[0].Named? {
        assert [names[0].name][0] == names[0].name;
      }
    }
  }

  lemma ResolveIsSegments(i: Import, package: seq<string>)
    requires package != [] && Segments(package) && WellFormed(i)
    ensures AllSegments(Resolve(i, package))
  {
    if i.From? && Target(i, package).Some? {
      SubmodulesAreSegments(i.line, Target(i, package).value, i.aliases);
    }
  }

  lemma {:induction false} ResolveAllIsSegments(imports: seq<Import>, package: seq<string>)
    requires package != [] && Segments(package)
    requires forall k :: 0 <= k < |imports| ==> WellFormed(imports[k])
    ensures AllSegments(ResolveAll(imports, package))
  {
    if imports != [] {
      ResolveAllIsSegments(imports[..|imports| - 1], package);
      ResolveIsSegments(imports[|imports| - 1], package);
    }
  }

  /** The modules grouped under a line and role are the spelled targets that reach it. */
  lemma GroupIsReach(bounds: seq<Bound<seq<string>>>, rule: Rule, line: nat, role: string, mod: string)
    requires AllSegments(bounds) && RuleOk(rule)
    ensures mod in Hits(Spelled(bounds), rule.targetRoles, (line, role)) <==>
              role in rule.targetRoles
              && exists k :: 0 <= k < |bounds| && Reaches(bounds[k], line, role) && mod == Dots(bounds[k].target)
  {
    var found := Spelled(bounds);
    HitsMember(found, rule.targetRoles, (line, role), mod);
    forall k | 0 <= k < |bounds|
      ensures FirstHit(rule.targetRoles, Dots(bounds[k].target)) == Some(role)
              <==> role in rule.targetRoles && RolePath(role) <= bounds[k].target
    {
      FirstHitIs(rule.targetRoles, bounds[k].target, role);
    }
    if k :| 0 <= k < |bounds| && Reaches(bounds[k], line, role) && mod == Dots(bounds[k].target) && role in rule.targetRoles {
      assert found[k] == Bound(line, mod);
    }
  }

  lemma BareSpelling(target: seq<string>, role: string)
    requires target != [] && Segments(target) && Segments([role])
    ensures Dots(target) == ROOT + "." + role <==> target == RolePath(role)
  {
    RolePathSpelling(role);
    DotsInjective(target, RolePath(role));
  }

  /** Spelled out, the line holds nothing but the bare role exactly when no segment goes below it. */
  lemma OnlyBareSpelling(bounds: seq<Bound<seq<string>>>, rule: Rule, line: nat, role: string)
    requires AllSegments(bounds) && RuleOk(rule) && role in rule.targetRoles
    ensures OnlyBare(bounds, line, role)
       <==> forall m :: m in Hits(Spelled(bounds), rule.targetRoles, (line, role)) ==> m == ROOT + "." + role
  {
    var modules := Hits(Spelled(bounds), rule.targetRoles, (line, role));
    if forall m :: m in modules ==> m == ROOT + "." + role {
      forall j | 0 <= j < |bounds| && Reaches(bounds[j], line, role) ensures bounds[j].target == RolePath(role) {
        GroupIsReach(bounds, rule, line, role, Dots(bounds[j].target));
        BareSpelling(bounds[j].target, role);
      }
    }
    if OnlyBare(bounds, line, role) {
      forall m | m in modules ensures m == ROOT + "." + role {
        GroupIsReach(bounds, rule, line, role, m);
        var k :| 0 <= k < |bounds| && Reaches(bounds[k], line, role) && m == Dots(bounds[k].target);
        BareSpelling(bounds[k].target, role);
      }
    }
  }

  ghost predicate SpellsOffender(bounds: seq<Bound<seq<string>>>, rule: Rule, source: string, line: nat, role: string, mod: string) {
    exists k :: 0 <= k < |bounds| && Offends(bounds, rule, source, line, role, k) && mod == Dots(bounds[k].target)
  }

  /** A judged module of a group is outside the allowlist exactly when it spells an offender. */
  lemma JudgedIsOffender(bounds: seq<Bound<seq<string>>>, rule: Rule, source: string, line: nat, role: string, mod: string)
    requires AllSegments(bounds) && RuleOk(rule)
    ensures mod in Judged(Hits(Spelled(bounds), rule.targetRoles, (line, role)), role) && !DirAllowed(rule, source, mod)
       <==> role in rule.targetRoles && SpellsOffender(bounds, rule, source, line, role, mod)
  {
    var modules := Hits(Spelled(bounds), rule.targetRoles, (line, role));
    GroupIsReach(bounds, rule, line, role, mod);
    JudgedMember(modules, role, mod);
    if role in rule.targetRoles {
      OnlyBareSpelling(bounds, rule, line, role);
      forall k | 0 <= k < |bounds| && mod == Dots(bounds[k].target)
        ensures DirAllowed(rule, source, mod) <==> Allowed(rule, source, bounds[k].target)
        ensures mod == ROOT + "." + role <==> bounds[k].target == RolePath(role)
      {
        DirAllowedIsAllowed(rule, source, bounds[k].target);
        BareSpelling(bounds[k].target, role);
      }
    }
  }

  /** A group is reported exactly when its line violates the rule in its role, and then for an offender. */
  lemma ReportedIsViolation(bounds: seq<Bound<seq<string>>>, rule: Rule, source: string, line: nat, role: string)
    requires AllSegments(bounds) && RuleOk(rule)
    ensures var r := FirstForbidden(Judged(Hits(Spelled(bounds), rule.targetRoles, (line, role)), role), rule, source);
            && (r.Some? <==> Violates(bounds, rule, source, line, role))
            && (r.Some? ==> SpellsOffender(bounds, rule, source, line, role, r.value))
  {
    var judged := Judged(Hits(Spelled(bounds), rule.targetRoles, (line, role)), role);
    FirstForbiddenIs(judged, rule, source);
    if FirstForbidden(judged, rule, source).Some? {
      JudgedIsOffender(bounds, rule, source, line, role, FirstForbidden(judged, rule, source).value);
    }
    if Violates(bounds, rule, source, line, role) {
      var k :| 0 <= k < |bounds| && Offends(bounds, rule, source, line, role, k);
      JudgedIsOffender(bounds, rule, source, line, role, Dots(bounds[k].target));
    }
  }

  /** The grouping loop: per line and role, the modules that hit. */
  method GroupByLine(found: seq<Bound<string>>, roles: seq<string>) returns (byLine: Groups)
    ensures forall key :: key in byLine <==> Hits(found, roles, key) != []
    ensures forall key :: key in byLine ==> byLine[key] == Hits(found, roles, key)
  {
    byLine := map[];
    for n := 0 to |found|
      invariant forall key :: key in byLine <==> Hits(found[..n], roles, key) != []
      invariant forall key :: key in byLine ==> byLine[key] == Hits(found[..n], roles, key)
    {
      assert found[..n + 1][..n] == found[..n];
      var hit := FirstHit(roles, found[n].target);
      if hit.Some? {
        byLine := Put(byLine, (found[n].line, hit.value), found[n].target);
      }
    }
    assert found[..|found|] == found;
  }

  /** The per-file part of `lint_directional`: what is reported, by line and role. */
  method LintDirectional(imports: seq<Import>, package: seq<string>, rule: Rule, source: string)
    returns (reported: map<(nat, string), string>)
    requires package != [] && Segments(package) && RuleOk(rule)
    requires forall k :: 0 <= k < |imports| ==> WellFormed(imports[k])
    ensures forall key :: key in reported <==> Violates(ResolveAll(imports, package), rule, source, key.0, key.1)
    ensures forall key :: key in reported ==>
              SpellsOffender(ResolveAll(imports, package), rule, source, key.0, key.1, reported[key])
  {
    var found := IterImports(imports, package);
    var byLine := GroupByLine(found, rule.targetRoles);
    ResolveAllIsSegments(imports, package);
    reported := map key | key in byLine && Offender(byLine[key], key.1, rule, source).Some?
                        :: Offender(byLine[key], key.1, rule, source).value;
    forall key: (nat, string)
      ensures key in reported <==> Violates(ResolveAll(imports, package), rule, source, key.0, key.1)
      ensures key in reported ==>
                SpellsOffender(ResolveAll(imports, package), rule, source, key.0, key.1, reported[key])
    {
      ReportedIsViolation(ResolveAll(imports, package), rule, source, key.0, key.1);
    }
  }

  function Offender(modules: seq<string>, role: string, rule: Rule, source: string): Option<string> {
    FirstForbidden(Judged(modules, role), rule, source)
  }

  /** The specific modules of a group, or all of it when it has none. */
  function Judged(modules: seq<string>, role: string): seq<string> {
    var specific := Specific(modules, role);
    if specific != [] then specific else modules
  }

  function Specific(modules: seq<string>, role: string): seq<string> {
    if modules == [] then []
    else (if modules[0] != ROOT + "." + role then [modules[0]] else []) + Specific(modules[1..], role)
  }

  function FirstForbidden(modules: seq<string>, rule: Rule, source: string): Option<string> {
    if modules == [] then None
    else if !DirAllowed(rule, source, modules[0]) then Some(modules[0])
    else FirstForbidden(modules[1..], rule, source)
  }
}
