/** The authorization policy of the registry: roles, grants and cleaned resource names. */
module Policy {
  import opened Text

  datatype Role = RoleNone | RoleAdmin | RolePuller | RoleScoped

  datatype Grant = Grant(kind: string, name: string, actions: seq<string>)

  datatype Subject = Subject(role: Role, grants: seq<Grant>)

  datatype Access = Access(kind: string, name: string, action: string)

  // ---------------------------------------------------------------- names

  /** What a rooted path does with its next segment. */
  function Push(stack: seq<string>, segment: string): seq<string> {
    if segment == "" || segment == "." then stack
    else if segment == ".." then (if stack == [] then [] else stack[..|stack| - 1])
    else stack + [segment]
  }

  function ReduceOnto(stack: seq<string>, segments: seq<string>): seq<string>
    decreases |segments|
  {
    if segments == [] then stack else ReduceOnto(Push(stack, segments[0]), segments[1..])
  }

  /** The segments a name comes down to below the root. */
  function Reduced(name: string): seq<string> {
    ReduceOnto([], Split(name, '/'))
  }

  /** A rooted path clean, without its leading slash. */
  function CleanName(name: string): string {
    Join(Reduced(name), '/')
  }

  predicate Plain(segment: string) {
    segment != "" && segment != "." && segment != ".." && '/' !in segment
  }

  predicate AllPlain(segments: seq<string>) {
    forall i :: 0 <= i < |segments| ==> Plain(segments[i])
  }

  lemma {:induction false} ReduceLeavesPlain(stack: seq<string>, segments: seq<string>)
    requires AllPlain(stack) && forall i :: 0 <= i < |segments| ==> '/' !in segments[i]
    ensures AllPlain(ReduceOnto(stack, segments))
    decreases |segments|
  {
    if segments != [] {
      ReduceLeavesPlain(Push(stack, segments[0]), segments[1..]);
    }
  }

  lemma {:induction false} ReducePlain(stack: seq<string>, segments: seq<string>)
    requires AllPlain(segments)
    ensures ReduceOnto(stack, segments) == stack + segments
    decreases |segments|
  {
    if segments != [] {
      ReducePlain(stack + [segments[0]], segments[1..]);
      assert stack + [segments[0]] + segments[1..] == stack + segments;
    } else {
      assert stack + segments == stack;
    }
  }

  lemma ReducedIsPlain(name: string)
    ensures AllPlain(Reduced(name))
  {
    ReduceLeavesPlain([], Split(name, '/'));
  }

  /** Joining and reducing again gives the segments back. */
  lemma ReducedOfJoin(segments: seq<string>)
    requires AllPlain(segments)
    ensures Reduced(Join(segments, '/')) == segments
  {
    if segments == [] {
      assert Split("", '/') == [""];
      assert ReduceOnto([], [""]) == [];
    } else {
      SplitJoin(segments, '/');
      ReducePlain([], segments);
      assert [] + segments == segments;
    }
  }

  /** Cleaning is idempotent and leaves no empty, dot or dot-dot segment. */
  lemma CleanIsIdempotent(name: string)
    ensures CleanName(CleanName(name)) == CleanName(name)
    ensures Reduced(CleanName(name)) == Reduced(name) && AllPlain(Reduced(CleanName(name)))
  {
    ReducedIsPlain(name);
    ReducedOfJoin(Reduced(name));
  }

  /** Clean names are equal exactly if the names reduce to the same segments. */
  lemma CleanEqualExactlyWhen(a: string, b: string)
    ensures CleanName(a) == CleanName(b) <==> Reduced(a) == Reduced(b)
  {
    CleanIsIdempotent(a);
    CleanIsIdempotent(b);
  }

  lemma {:induction false} ReduceAppend(stack: seq<string>, xs: seq<string>, ys: seq<string>)
    ensures ReduceOnto(stack, xs + ys) == ReduceOnto(ReduceOnto(stack, xs), ys)
    decreases |xs|
  {
    if xs == [] {
      assert xs + ys == ys;
    } else {
      assert (xs + ys)[1..] == xs[1..] + ys;
      ReduceAppend(Push(stack, xs[0]), xs[1..], ys);
    }
  }

  lemma ReduceNext(name: string, segment: string)
    requires '/' !in segment
    ensures Reduced(name + "/" + segment) == Push(Reduced(name), segment)
  {
    SplitConcat(name, segment, '/');
    SplitAfter(segment, "", '/');
    ReduceAppend([], Split(name, '/'), [segment]);
    assert [segment][1..] == [];
    assert ReduceOnto(Reduced(name), [segment]) == ReduceOnto(Push(Reduced(name), segment), []);
  }

  lemma FromRoot(name: string)
    ensures Reduced("") == [] && Reduced("/" + name) == Reduced(name)
  {
    assert Split("", '/') == [""] && ReduceOnto([], [""]) == ReduceOnto([], [""][1..]);
    SplitConcat("", name, '/');
    assert "" + "/" + name == "/" + name;
    ReduceAppend([], [""], Split(name, '/'));
  }

  lemma Staying(name: string)
    ensures Reduced(name + "/") == Reduced(name) && Reduced(name + "/.") == Reduced(name)
  {
    ReduceNext(name, "");
    ReduceNext(name, ".");
    assert name + "/" + "" == name + "/" && name + "/" + "." == name + "/.";
  }

  lemma GoingUp(name: string)
    ensures Reduced(name) == [] ==> Reduced(name + "/..") == []
    ensures Reduced(name) != [] ==>
              |Reduced(name + "/..")| == |Reduced(name)| - 1 && Reduced(name + "/..") <= Reduced(name)
  {
    ReduceNext(name, "..");
    assert name + "/" + ".." == name + "/..";
  }

  /**
    What each kind of segment does: a plain one goes one place down, an empty one and a dot
    stay, two dots go one place up and stop at the root.
  */
  lemma CleanGoes(name: string, segment: string)
    requires Plain(segment)
    ensures Reduced("") == [] && Reduced("/" + name) == Reduced(name)
    ensures Reduced(name + "/" + segment) == Reduced(name) + [segment]
    ensures Reduced(name + "/") == Reduced(name) && Reduced(name + "/.") == Reduced(name)
    ensures Reduced(name) == [] ==> Reduced(name + "/..") == []
    ensures Reduced(name) != [] ==>
              |Reduced(name + "/..")| == |Reduced(name)| - 1 && Reduced(name + "/..") <= Reduced(name)
  {
    FromRoot(name);
    ReduceNext(name, segment);
    Staying(name);
    GoingUp(name);
  }

  // ---------------------------------------------------------------- decisions

  /** The rule: same type, same place, and the action or any action. */
  predicate Grants(g: Grant, a: Access) {
    g.kind == a.kind && Reduced(g.name) == Reduced(a.name) && (a.action in g.actions || "*" in g.actions)
  }

  predicate Allowed(s: Subject, a: Access) {
    match s.role
    case RoleNone => false
    case RoleAdmin => true
    case RolePuller => a.kind == "repository" && a.action == "pull"
    case RoleScoped => exists g :: g in s.grants && Grants(g, a)
  }

  method GrantsCover(grants: seq<Grant>, a: Access) returns (ok: bool)
    ensures ok <==> exists g :: g in grants && Grants(g, a)
  {
    var name := CleanName(a.name);
    for i := 0 to |grants|
      invariant forall k :: 0 <= k < i ==> !Grants(grants[k], a)
    {
      var g := grants[i];
      CleanEqualExactlyWhen(g.name, a.name);
      if g.kind != a.kind || CleanName(g.name) != name {
        continue;
      }
      for j := 0 to |g.actions|
        invariant forall k :: 0 <= k < j ==> g.actions[k] != a.action && g.actions[k] != "*"
      {
        if g.actions[j] == a.action || g.actions[j] == "*" {
          assert g in grants && Grants(g, a);
          return true;
        }
      }
    }
    return false;
  }

  method AuthorizeOne(s: Subject, a: Access) returns (ok: bool)
    ensures ok <==> Allowed(s, a)
  {
    match s.role
    case RoleAdmin => return true;
    case RolePuller => return a.kind == "repository" && a.action == "pull";
    case RoleScoped => ok := GrantsCover(s.grants, a);
    case RoleNone => return false;
  }

  /** A request is authorized exactly if every access in it is allowed. */
  method Authorize(s: Subject, accesses: seq<Access>) returns (ok: bool)
    ensures ok <==> forall a :: a in accesses ==> Allowed(s, a)
  {
    for i := 0 to |accesses|
      invariant forall k :: 0 <= k < i ==> Allowed(s, accesses[k])
    {
      var one := AuthorizeOne(s, accesses[i]);
      if !one {
        assert accesses[i] in accesses;
        return false;
      }
    }
    return true;
  }

  /** More grants never take a right away, so neither order nor repetition matters. */
  lemma MoreGrantsAllowMore(s: Subject, t: Subject, a: Access)
    requires s.role == t.role && (forall g :: g in s.grants ==> g in t.grants) && Allowed(s, a)
    ensures Allowed(t, a)
  {
  }

  function Cleaned(a: Access): Access {
    a.(name := CleanName(a.name))
  }

  function CleanedGrants(gs: seq<Grant>): seq<Grant> {
    seq(|gs|, i requires 0 <= i < |gs| => gs[i].(name := CleanName(gs[i].name)))
  }

  lemma CleaningKeepsGrants(g: Grant, a: Access)
    ensures Grants(g.(name := CleanName(g.name)), Cleaned(a)) <==> Grants(g, a)
  {
    CleanIsIdempotent(a.name);
    CleanIsIdempotent(g.name);
  }

  /**
    Names count only as places: detours in the names of an access or of any grants do not
    change the decision, and an allowed access is at the place and of the type of a grant.
  */
  lemma ScopedStaysInPlace(gs: seq<Grant>, a: Access)
    ensures Allowed(Subject(RoleScoped, CleanedGrants(gs)), Cleaned(a)) <==> Allowed(Subject(RoleScoped, gs), a)
    ensures Allowed(Subject(RoleScoped, gs), a) ==>
              exists g :: g in gs && CleanName(g.name) == CleanName(a.name) && g.kind == a.kind
  {
    var hs := CleanedGrants(gs);
    if Allowed(Subject(RoleScoped, gs), a) {
      var g :| g in gs && Grants(g, a);
      var i :| 0 <= i < |gs| && gs[i] == g;
      CleaningKeepsGrants(g, a);
      assert hs[i] in hs && Grants(hs[i], Cleaned(a));
      CleanEqualExactlyWhen(g.name, a.name);
    }
    if Allowed(Subject(RoleScoped, hs), Cleaned(a)) {
      var h :| h in hs && Grants(h, Cleaned(a));
      var i :| 0 <= i < |hs| && hs[i] == h;
      CleaningKeepsGrants(gs[i], a);
      assert gs[i] in gs;
    }
  }
}
