/** Project membership bookkeeping: the user bindings of a project with
    their roles, the pre-save check on a binding, the role
    directives of `set_roles`, the reconciliation of volume bindings, the
    unique project name and the order of projects. */
module Projects {
  import opened Wrappers

  datatype Role = Creator | Administrator | Member

  datatype User = User(id: nat, username: string)

  /** The bindings of one project: each bound user with their role. */
  type Bindings = map<User, Role>

  datatype Project = Project(name: string, bindings: Bindings)

  predicate IsCreator(b: Bindings, u: User) {
    u in b && b[u] == Creator
  }

  predicate HasCreator(b: Bindings) {
    exists u :: u in b && b[u] == Creator
  }

  /** At most one binding of the project has the creator role. */
  predicate SingleCreator(b: Bindings) {
    forall u, v :: u in b && v in b && b[u] == Creator && b[v] == Creator ==> u == v
  }

  // ---------------------------------------------------------------------
  // the pre-save check on a binding

  /** Why a binding save is refused: an assertion of the pre-save check with
      its message, or an ambiguous creator lookup. */
  datatype SaveError = AssertionFailed(message: string) | MultipleCreators

  /** Saving the binding of `u` with `role` (creating it when `u` has none).
      The pre-save check looks up the project's creator binding: if there is
      one, a creator binding may only be saved when it is that same binding;
      if there is none, only a creator binding may be saved. */
  function SaveBinding(p: Project, u: User, role: Role): Result<Bindings, SaveError> {
    var b := p.bindings;
    if !SingleCreator(b) then Failure(MultipleCreators)
    else if HasCreator(b) then
      if role == Creator && !IsCreator(b, u) then Failure(AssertionFailed("Project " + p.name + " cannot have more than one creator"))
      else Success(b[u := role])
    else if role != Creator then Failure(AssertionFailed("The first user project binding must be the creator " + p.name + "-" + u.username))
    else Success(b[u := role])
  }

  /** The pre-save check accepts a save exactly when it keeps the project at
      one creator at most and, for a project without a creator, the saved
      binding is the creator's; an accepted save changes only the saved
      binding, and the single-creator property survives it. */
  lemma SaveBindingIff(p: Project, u: User, role: Role)
    requires SingleCreator(p.bindings)
    ensures var r := SaveBinding(p, u, role);
            && (r.Success? <==> (if HasCreator(p.bindings) then role != Creator || IsCreator(p.bindings, u) else role == Creator))
            && (r.Success? ==> r.value == p.bindings[u := role] && SingleCreator(r.value))
  {
    var r := SaveBinding(p, u, role);
    if r.Success? && role == Creator && HasCreator(p.bindings) {
      assert IsCreator(p.bindings, u);
      assert r.value == p.bindings;
    }
  }

  /** The first binding of a project must be its creator's. */
  lemma FirstBindingIsCreator(name: string, u: User, role: Role)
    ensures SaveBinding(Project(name, map[]), u, role).Success? <==> role == Creator
    ensures role != Creator ==>
              SaveBinding(Project(name, map[]), u, role)
              == Failure(AssertionFailed("The first user project binding must be the creator " + name + "-" + u.username))
  {
    assert !HasCreator(map[]);
  }

  /** The project's creator, if it has one. */
  function CreatorOf(b: Bindings): (r: Option<User>)
    requires SingleCreator(b)
    ensures r.Some? <==> HasCreator(b)
    ensures r.Some? ==> IsCreator(b, r.value)
  {
    if HasCreator(b) then
      var c :| c in b && b[c] == Creator;
      Some(c)
    else None
  }

  // ---------------------------------------------------------------------
  // roles as seen by the templates

  /** `is_admin`: the user's binding is the creator's or an administrator's. */
  predicate IsAdmin(b: Bindings, u: User) {
    u in b && (b[u] == Creator || b[u] == Administrator)
  }

  /** `is_collaborator`: the user's binding is a member's. */
  predicate IsCollaborator(b: Bindings, u: User) {
    u in b && b[u] == Member
  }

  /** Every bound user is exactly one of admin or collaborator; an unbound
      user is neither. */
  lemma AdminCollaboratorPartition(b: Bindings, u: User)
    ensures u !in b ==> !IsAdmin(b, u) && !IsCollaborator(b, u)
    ensures u in b ==> (IsAdmin(b, u) <==> !IsCollaborator(b, u))
    ensures IsAdmin(b, u) <==> u in b && b[u] in {Creator, Administrator}
  {
  }

  // ---------------------------------------------------------------------
  // role directives

  /** `str.split` on a single-character separator: the parts between the
      separators, as many as there are separators plus one. */
  function SplitOn(s: string, sep: char): (parts: seq<string>)
    ensures |parts| >= 1
    ensures forall i :: 0 <= i < |parts| ==> sep !in parts[i]
    decreases |s|
  {
    if |s| == 0 then [""]
    else
      var rest := SplitOn(s[1..], sep);
      if s[0] == sep then [""] + rest
      else [[s[0]] + rest[0]] + rest[1..]
  }

  /** `sep.join(parts)`. */
  function JoinWith(parts: seq<string>, sep: char): string
    requires |parts| >= 1
  {
    if |parts| == 1 then parts[0] else parts[0] + [sep] + JoinWith(parts[1..], sep)
  }

  /** Splitting and joining again gives back the text. */
  lemma {:induction false} SplitJoin(s: string, sep: char)
    ensures JoinWith(SplitOn(s, sep), sep) == s
    decreases |s|
  {
    if |s| > 0 {
      var rest := SplitOn(s[1..], sep);
      SplitJoin(s[1..], sep);
      if s[0] != sep {
        var parts := [[s[0]] + rest[0]] + rest[1..];
        if |rest| == 1 {
          assert parts == [[s[0]] + rest[0]];
        } else {
          assert parts[1..] == rest[1..];
          assert JoinWith(rest, sep) == rest[0] + [sep] + JoinWith(rest[1..], sep);
        }
      }
    }
  }

  /** Joining separator-free parts and splitting again gives back the parts. */
  lemma {:induction false} JoinSplit(parts: seq<string>, sep: char)
    requires |parts| >= 1
    requires forall i :: 0 <= i < |parts| ==> sep !in parts[i]
    ensures SplitOn(JoinWith(parts, sep), sep) == parts
    decreases |parts|, |parts[0]|
  {
    if |parts[0]| > 0 {
      var shorter := [parts[0][1..]] + parts[1..];
      assert forall i :: 1 <= i < |shorter| ==> shorter[i] == parts[i];
      assert sep !in shorter[0] by { assert forall j :: 0 <= j < |shorter[0]| ==> shorter[0][j] == parts[0][j + 1]; }
      JoinSplit(shorter, sep);
      assert parts[0][0] in parts[0];
      JoinSplitHeadStep(parts[0][0], parts[0][1..], parts[1..], sep);
      assert parts[0] == [parts[0][0]] + parts[0][1..];
      assert parts == [parts[0]] + parts[1..];
    } else if |parts| > 1 {
      JoinSplit(parts[1..], sep);
      JoinSplitSepStep(parts, sep);
    }
  }

  /** The step of `JoinSplit` that moves the first character `c` of a
      non-empty first part. */
  lemma JoinSplitHeadStep(c: char, tail: string, more: seq<string>, sep: char)
    requires c != sep
    requires SplitOn(JoinWith([tail] + more, sep), sep) == [tail] + more
    ensures SplitOn(JoinWith([[c] + tail] + more, sep), sep) == [[c] + tail] + more
  {
    JoinWithConsChar(c, tail, more, sep);
    SplitOnCons(c, JoinWith([tail] + more, sep), sep);
    assert ([tail] + more)[1..] == more;
  }

  lemma JoinWithConsChar(c: char, tail: string, more: seq<string>, sep: char)
    ensures JoinWith([[c] + tail] + more, sep) == [c] + JoinWith([tail] + more, sep)
  {
    if |more| > 0 {
      assert ([[c] + tail] + more)[1..] == more;
      assert ([tail] + more)[1..] == more;
    }
  }

  /** The step of `JoinSplit` that drops an empty first part. */
  lemma JoinSplitSepStep(parts: seq<string>, sep: char)
    requires |parts| > 1 && parts[0] == []
    requires SplitOn(JoinWith(parts[1..], sep), sep) == parts[1..]
    ensures SplitOn(JoinWith(parts, sep), sep) == parts
  {
    assert JoinWith(parts, sep) == [sep] + JoinWith(parts[1..], sep);
    SplitOnCons(sep, JoinWith(parts[1..], sep), sep);
    assert parts == [""] + parts[1..];
  }

  /** One step of `SplitOn`. */
  lemma SplitOnCons(c: char, t: string, sep: char)
    ensures SplitOn([c] + t, sep) == if c == sep then [""] + SplitOn(t, sep)
                                     else [[c] + SplitOn(t, sep)[0]] + SplitOn(t, sep)[1..]
  {
    assert ([c] + t)[1..] == t;
  }

  lemma JoinWithHead(parts: seq<string>, sep: char)
    requires |parts| >= 1
    ensures JoinWith(parts, sep) == parts[0] + (if |parts| == 1 then [] else [sep] + JoinWith(parts[1..], sep))
  {
  }

  /** A role directive `<target>-<user id>`. */
  datatype Directive = Directive(target: string, userId: string)

  /** Unpacking `role.split('-')` into two names: anything but exactly one
      dash is malformed. */
  function ParseDirective(s: string): Option<Directive> {
    var parts := SplitOn(s, '-');
    if |parts| == 2 then Some(Directive(parts[0], parts[1])) else None
  }

  /** A directive written from dash-free parts parses back to them, and a
      parsed directive prints back to the text it came from. */
  lemma DirectiveRoundTrip(d: Directive, s: string)
    ensures '-' !in d.target && '-' !in d.userId ==> ParseDirective(d.target + "-" + d.userId) == Some(d)
    ensures ParseDirective(s) == Some(d) ==> d.target + "-" + d.userId == s
  {
    if '-' !in d.target && '-' !in d.userId {
      JoinSplit([d.target, d.userId], '-');
      assert JoinWith([d.target, d.userId], '-') == d.target + "-" + d.userId;
    }
    if ParseDirective(s) == Some(d) {
      SplitJoin(s, '-');
      var parts := SplitOn(s, '-');
      assert JoinWith(parts, '-') == parts[0] + "-" + parts[1];
    }
  }

  /** Applying one directive for the (already looked-up) user `u`: the new
      bindings and the messages it adds. */
  function ApplyDirective(p: Project, target: string, u: User): Result<(Bindings, seq<string>), SaveError> {
    var b := p.bindings;
    if target == "skip" then
      if u in b then Success((b - {u}, ["User(s) removed from the collaboration: " + u.username]))
      else Success((b, []))
    else if target == "collaborator" then
      if u in b && b[u] == Member then Success((b, []))
      else
        match SaveBinding(p, u, Member)
        case Failure(e) => Failure(e)
        case Success(b') => Success((b', ["User(s) set as members of the collaboration: " + u.username]))
    else if target == "admin" then
      if u in b && b[u] == Administrator then Success((b, []))
      else
        match SaveBinding(p, u, Administrator)
        case Failure(e) => Failure(e)
        case Success(b') =>
          Success((b', [if u in b then "User(s) set as administrator(s) of the collaboration: " + u.username
                        else u.username + " is in collaboration and is an admin"]))
    else Success((b, []))
  }

  /** `skip-<id>` removes the user's binding when there is one and does
      nothing otherwise; no other binding changes, and a message is added
      exactly when a binding was removed. */
  lemma SkipEffect(p: Project, u: User)
    ensures var r := ApplyDirective(p, "skip", u);
            && r.Success?
            && u !in r.value.0
            && (forall v :: v != u ==> (v in r.value.0 <==> v in p.bindings) && (v in p.bindings ==> r.value.0[v] == p.bindings[v]))
            && (u !in p.bindings ==> r.value.0 == p.bindings)
            && (|r.value.1| > 0 <==> u in p.bindings)
  {
  }

  /** `collaborator-<id>` makes the user a member, creating the binding when
      missing; no other binding changes. A message is added exactly when the
      binding was created or its role changed. The save is refused only for
      a project without a creator. */
  lemma CollaboratorEffect(p: Project, u: User)
    requires SingleCreator(p.bindings)
    ensures var r := ApplyDirective(p, "collaborator", u);
            && (r.Success? <==> HasCreator(p.bindings) || IsCollaborator(p.bindings, u))
            && (r.Success? ==> r.value.0 == p.bindings[u := Member] && IsCollaborator(r.value.0, u))
            && (r.Success? ==> (|r.value.1| > 0 <==> u !in p.bindings || p.bindings[u] != Member))
  {
    SaveBindingIff(p, u, Member);
    if u in p.bindings && p.bindings[u] == Member {
      assert p.bindings[u := Member] == p.bindings;
    }
  }

  /** `admin-<id>` makes the user an administrator, creating the binding
      when missing; no other binding changes. A created binding is announced
      as "in collaboration and an admin", a changed role as "set as
      administrator", an unchanged one not at all. */
  lemma AdminEffect(p: Project, u: User)
    requires SingleCreator(p.bindings)
    ensures var r := ApplyDirective(p, "admin", u);
            && (r.Success? <==> HasCreator(p.bindings) || (u in p.bindings && p.bindings[u] == Administrator))
            && (r.Success? ==> r.value.0 == p.bindings[u := Administrator] && IsAdmin(r.value.0, u))
            && (r.Success? && u !in p.bindings ==> r.value.1 == [u.username + " is in collaboration and is an admin"])
            && (r.Success? && u in p.bindings && p.bindings[u] != Administrator ==>
                  r.value.1 == ["User(s) set as administrator(s) of the collaboration: " + u.username])
            && (r.Success? && u in p.bindings && p.bindings[u] == Administrator ==> r.value.1 == [])
  {
    SaveBindingIff(p, u, Administrator);
    if u in p.bindings && p.bindings[u] == Administrator {
      assert p.bindings[u := Administrator] == p.bindings;
    }
  }

  /** A directive never creates a creator binding: the creators after it are
      among the creators before it. */
  lemma DirectiveCreatesNoCreator(p: Project, target: string, u: User)
    requires SingleCreator(p.bindings)
    ensures var r := ApplyDirective(p, target, u);
            r.Success? ==> && (forall v :: IsCreator(r.value.0, v) ==> IsCreator(p.bindings, v))
                           && SingleCreator(r.value.0)
  {
    var b := p.bindings;
    var r := ApplyDirective(p, target, u);
    if r.Success? {
      if target == "skip" {
        RemoveAddsNoCreator(b, u);
      } else if target == "collaborator" {
        UpdateNonCreator(b, u, Member);
      } else if target == "admin" {
        UpdateNonCreator(b, u, Administrator);
      }
      CreatorsShrink(b, r.value.0);
    }
  }

  /** Removing a binding adds no creator. */
  lemma RemoveAddsNoCreator(b: Bindings, u: User)
    ensures forall v :: IsCreator(b - {u}, v) ==> IsCreator(b, v)
  {
  }

  /** Bindings whose creators were all creators of a single-creator project
      have a single creator too. */
  lemma CreatorsShrink(b: Bindings, b': Bindings)
    requires SingleCreator(b) && forall v :: IsCreator(b', v) ==> IsCreator(b, v)
    ensures SingleCreator(b')
  {
    forall u, v | u in b' && v in b' && b'[u] == Creator && b'[v] == Creator ensures u == v {
      assert IsCreator(b', u) && IsCreator(b', v);
    }
  }

  /** Giving a user a role other than creator adds no creator. */
  lemma UpdateNonCreator(b: Bindings, u: User, role: Role)
    requires role != Creator
    ensures forall v :: IsCreator(b[u := role], v) ==> IsCreator(b, v)
  {
  }

  /** Why `set_roles` stopped: a directive without exactly one dash, an id
      with no user behind it, or a refused save. */
  datatype RoleError = MalformedDirective(text: string) | NoSuchUser(userId: string) | SaveRefused(error: SaveError)

  /** The bindings after `set_roles`, the messages it returns, and the
      error that interrupted it. Directives before the failing one keep
      their effect; an error propagates as an exception, so no message
      reaches the caller then. */
  datatype RolesOutcome = RolesOutcome(bindings: Bindings, messages: seq<string>, failure: Option<RoleError>)

  /** `set_roles`: apply the directives in order, looking each user up by
      id in `users` before the target is examined. */
  function SetRoles(p: Project, directives: seq<string>, users: map<string, User>): RolesOutcome
    decreases |directives|
  {
    if |directives| == 0 then RolesOutcome(p.bindings, [], None)
    else
      match ParseDirective(directives[0])
      case None => RolesOutcome(p.bindings, [], Some(MalformedDirective(directives[0])))
      case Some(d) =>
        if d.userId !in users then RolesOutcome(p.bindings, [], Some(NoSuchUser(d.userId)))
        else
          match ApplyDirective(p, d.target, users[d.userId])
          case Failure(e) => RolesOutcome(p.bindings, [], Some(SaveRefused(e)))
          case Success((b', msgs)) =>
            var rest := SetRoles(p.(bindings := b'), directives[1..], users);
            RolesOutcome(rest.bindings, if rest.failure.Some? then [] else msgs + rest.messages, rest.failure)
  }

  /** `set_roles` keeps a project at one creator at most and never adds a
      creator: every creator after it was a creator before. */
  lemma {:induction false} SetRolesKeepsSingleCreator(p: Project, directives: seq<string>, users: map<string, User>)
    requires SingleCreator(p.bindings)
    ensures var r := SetRoles(p, directives, users);
            && SingleCreator(r.bindings)
            && forall v :: IsCreator(r.bindings, v) ==> IsCreator(p.bindings, v)
    decreases |directives|
  {
    var next := SetRolesStep(p, directives, users);
    if next.Some? {
      var u := users[ParseDirective(directives[0]).value.userId];
      DirectiveCreatesNoCreator(p, ParseDirective(directives[0]).value.target, u);
      SetRolesKeepsSingleCreator(next.value, directives[1..], users);
    }
  }

  /** One step of `set_roles`: either it stops with the bindings as they
      are, or the first directive succeeds and the rest continue from the
      project it produced. */
  lemma SetRolesStep(p: Project, directives: seq<string>, users: map<string, User>) returns (next: Option<Project>)
    ensures next.None? ==> SetRoles(p, directives, users).bindings == p.bindings
    ensures next.Some? ==>
              && |directives| > 0
              && ParseDirective(directives[0]).Some?
              && ParseDirective(directives[0]).value.userId in users
              && var d := ParseDirective(directives[0]).value;
                 var r := ApplyDirective(p, d.target, users[d.userId]);
                 && r.Success?
                 && next.value == p.(bindings := r.value.0)
                 && SetRoles(p, directives, users).bindings == SetRoles(next.value, directives[1..], users).bindings
  {
    next := None;
    if |directives| > 0 {
      var pd := ParseDirective(directives[0]);
      if pd.Some? && pd.value.userId in users {
        var r := ApplyDirective(p, pd.value.target, users[pd.value.userId]);
        if r.Success? {
          next := Some(p.(bindings := r.value.0));
        }
      }
    }
  }

  /** Directives whose target is none of the three known ones change
      nothing and say nothing, once their user exists. */
  lemma UnknownTargetIgnored(p: Project, target: string, u: User)
    requires target != "skip" && target != "collaborator" && target != "admin"
    ensures ApplyDirective(p, target, u) == Success((p.bindings, []))
  {
  }

  // ---------------------------------------------------------------------
  // volume bindings

  datatype VolumeKind = Functional | Storage | OtherKind

  datatype VolumeRef = VolumeRef(volumeId: nat, kind: VolumeKind)

  /** A binding row deleted or created by `set_volumes`. */
  datatype VolumeOp = Unbind(unbound: VolumeRef) | Bind(bound: VolumeRef)

  /** The project's volumes as `set_volumes` reads them: the bound ones that
      are functional or storage volumes. */
  function KnownVolumes(bound: set<VolumeRef>): set<VolumeRef> {
    set v | v in bound && (v.kind == Functional || v.kind == Storage)
  }

  /** `set_volumes`: reconcile the bound volumes with the requested list by
      deleting the bindings of volumes no longer requested and creating
      those of newly requested ones; nothing is touched when the two sets
      already agree. */
  method SetVolumes(bound: set<VolumeRef>, requested: seq<VolumeRef>) returns (after: set<VolumeRef>, ops: seq<VolumeOp>)
    ensures var wanted := set v | v in requested; var current := KnownVolumes(bound);
            && (forall v :: Unbind(v) in ops <==> v in current && v !in wanted)
            && (forall v :: Bind(v) in ops <==> v in wanted && v !in current)
            && (current == wanted ==> ops == [] && after == bound)
            && (forall v :: v in after <==> (v in bound && !(v in current && v !in wanted)) || v in wanted)
    ensures forall i :: 0 <= i < |ops| ==> ops[i].Unbind? || ops[i].Bind?
    ensures forall i, j :: 0 <= i < j < |ops| && ops[j].Unbind? ==> ops[i].Unbind?
    ensures var wanted := set v | v in requested; var current := KnownVolumes(bound);
            |ops| == |current - wanted| + |wanted - current|
  {
    var wanted := set v | v in requested;
    var current := KnownVolumes(bound);
    after, ops := bound, [];
    if current != wanted {
      var remove := current - wanted;
      var add := wanted - current;
      var unbinds := UnbindEach(remove);
      var binds := BindEach(add);
      after := bound - remove + add;
      ops := unbinds + binds;
      assert forall v :: Unbind(v) in ops <==> Unbind(v) in unbinds;
      assert forall v :: Bind(v) in ops <==> Bind(v) in binds;
    }
  }

  /** One `Unbind` per volume of `remove`, in some order. */
  method UnbindEach(remove: set<VolumeRef>) returns (ops: seq<VolumeOp>)
    ensures |ops| == |remove|
    ensures forall i :: 0 <= i < |ops| ==> ops[i].Unbind?
    ensures forall v :: Unbind(v) in ops <==> v in remove
  {
    ops := [];
    var todo := remove;
    while todo != {}
      invariant todo <= remove
      invariant |ops| + |todo| == |remove|
      invariant forall i :: 0 <= i < |ops| ==> ops[i].Unbind?
      invariant forall v :: Unbind(v) in ops <==> v in remove && v !in todo
      decreases |todo|
    {
      var v :| v in todo;
      ops := ops + [Unbind(v)];
      todo := todo - {v};
    }
  }

  /** One `Bind` per volume of `add`, in some order. */
  method BindEach(add: set<VolumeRef>) returns (ops: seq<VolumeOp>)
    ensures |ops| == |add|
    ensures forall i :: 0 <= i < |ops| ==> ops[i].Bind?
    ensures forall v :: Bind(v) in ops <==> v in add
  {
    ops := [];
    var todo := add;
    while todo != {}
      invariant todo <= add
      invariant |ops| + |todo| == |add|
      invariant forall i :: 0 <= i < |ops| ==> ops[i].Bind?
      invariant forall v :: Bind(v) in ops <==> v in add && v !in todo
      decreases |todo|
    {
      var v :| v in todo;
      ops := ops + [Bind(v)];
      todo := todo - {v};
    }
  }

  /** When every bound volume is a functional or storage volume, the bound
      set after `set_volumes` is exactly the requested set. */
  lemma SetVolumesExact(bound: set<VolumeRef>, requested: seq<VolumeRef>, after: set<VolumeRef>)
    requires forall v :: v in bound ==> v.kind == Functional || v.kind == Storage
    requires forall v :: v in after <==>
               (v in bound && !(v in KnownVolumes(bound) && v !in requested)) || v in requested
    ensures after == set v | v in requested
  {
  }

  // ---------------------------------------------------------------------
  // unique name

  /** `uniquename`: the creator's user name and the standardised project
      name joined by a dash, or the standardised name alone when the project
      has no creator. The standardisation is a parameter. */
  function UniqueName(p: Project, standardize: string -> string): string
    requires SingleCreator(p.bindings)
  {
    match CreatorOf(p.bindings)
    case Some(c) => c.username + "-" + standardize(p.name)
    case None => standardize(p.name)
  }

  /** Two projects whose creators have dash-free user names get the same
      unique name only when they have the same creator name and the same
      standardised name. */
  lemma UniqueNameSeparates(p: Project, q: Project, standardize: string -> string)
    requires SingleCreator(p.bindings) && SingleCreator(q.bindings)
    requires HasCreator(p.bindings) && HasCreator(q.bindings)
    requires '-' !in CreatorOf(p.bindings).value.username && '-' !in CreatorOf(q.bindings).value.username
    ensures UniqueName(p, standardize) == UniqueName(q, standardize) <==>
              CreatorOf(p.bindings).value.username == CreatorOf(q.bindings).value.username
              && standardize(p.name) == standardize(q.name)
  {
    var a, b := CreatorOf(p.bindings).value.username, CreatorOf(q.bindings).value.username;
    var x, y := standardize(p.name), standardize(q.name);
    if a + "-" + x == b + "-" + y {
      DashPrefix(a, x, b, y);
    }
  }

  lemma DashPrefix(a: string, x: string, b: string, y: string)
    requires '-' !in a && '-' !in b
    requires a + "-" + x == b + "-" + y
    ensures a == b && x == y
  {
    var s, t := a + "-" + x, b + "-" + y;
    assert forall i :: 0 <= i < |a| ==> s[i] == a[i];
    assert forall i :: 0 <= i < |b| ==> t[i] == b[i];
    assert s[|a|] == '-' && t[|b|] == '-';
    assert |a| == |b|;
    assert a == s[..|a|] && b == t[..|b|];
    assert x == s[|a| + 1..] && y == t[|b| + 1..];
  }

  // ---------------------------------------------------------------------
  // order of projects

  /** Python's `<` on strings: code point by code point, a proper prefix
      coming first. */
  predicate LexLess(a: string, b: string)
    decreases |a|
  {
    if |a| == 0 then |b| > 0
    else if |b| == 0 then false
    else if a[0] != b[0] then a[0] < b[0]
    else LexLess(a[1..], b[1..])
  }

  /** `Project.__lt__`: projects are ordered by name. */
  predicate ProjectLess(p: Project, q: Project) {
    LexLess(p.name, q.name)
  }

  /** The order on names is a strict total order. */
  lemma {:induction false} LexLessStrictTotal(a: string, b: string)
    ensures !LexLess(a, a)
    ensures LexLess(a, b) ==> !LexLess(b, a)
    ensures a != b ==> LexLess(a, b) || LexLess(b, a)
    decreases |a|
  {
    if |a| > 0 && |b| > 0 && a[0] == b[0] {
      LexLessStrictTotal(a[1..], b[1..]);
      if a != b {
        assert a == [a[0]] + a[1..] && b == [b[0]] + b[1..];
      }
    }
    if |a| > 0 {
      LexLessStrictTotal(a[1..], a[1..]);
    }
  }

  lemma {:induction false} LexLessTransitive(a: string, b: string, c: string)
    requires LexLess(a, b) && LexLess(b, c)
    ensures LexLess(a, c)
    decreases |a|
  {
    if |a| > 0 && a[0] == b[0] && b[0] == c[0] {
      LexLessTransitive(a[1..], b[1..], c[1..]);
    }
  }

  /** Projects are sorted by name: a strict order on names that is total on
      projects with different names. */
  lemma ProjectOrder(p: Project, q: Project, r: Project)
    ensures !ProjectLess(p, p)
    ensures ProjectLess(p, q) ==> !ProjectLess(q, p)
    ensures ProjectLess(p, q) && ProjectLess(q, r) ==> ProjectLess(p, r)
    ensures p.name != q.name ==> ProjectLess(p, q) || ProjectLess(q, p)
  {
    LexLessStrictTotal(p.name, q.name);
    if ProjectLess(p, q) && ProjectLess(q, r) {
      LexLessTransitive(p.name, q.name, r.name);
    }
  }
}
