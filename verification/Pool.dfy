/** The rules that tie the disk templates of a pool to the disks its template refers to. */
module Pool {
  import opened Wrappers

  datatype DeviceRef = DeviceRef(kind: string, name: string)

  /** The block device references of the machine template, if it has a spec that has them. */
  datatype PoolSpec = PoolSpec(templates: seq<string>, refs: Option<seq<DeviceRef>>)

  const DISK := "VirtualDisk"

  /** The names of the disks among the references, in order. */
  function DiskNames(refs: seq<DeviceRef>): seq<string> {
    if refs == [] then []
    else (if refs[0].kind == DISK then [refs[0].name] else []) + DiskNames(refs[1..])
  }

  predicate EveryTemplateReferenced(p: PoolSpec) {
    p.refs.Some? && forall t :: t in p.templates ==>
      exists r :: r in p.refs.value && r.kind == DISK && r.name == t
  }

  predicate EveryDiskKnown(p: PoolSpec) {
    p.refs.Some? && forall r :: r in p.refs.value && r.kind == DISK ==> r.name in p.templates
  }

  predicate SameCount(p: PoolSpec) {
    p.refs.Some? && |DiskNames(p.refs.value)| == |p.templates|
  }

  predicate Distinct(names: seq<string>) {
    forall i, j :: 0 <= i < j < |names| ==> names[i] != names[j]
  }

  /** Every template is referenced exactly once, and nothing but templates is. */
  predicate OneToOne(p: PoolSpec) {
    && p.refs.Some?
    && (forall t :: t in p.templates ==> multiset(p.refs.value)[DeviceRef("VirtualDisk", t)] == 1)
    && (forall r :: r in p.refs.value && r.kind == "VirtualDisk" ==> r.name in p.templates)
  }

  // ---------------------------------------------------------------- pigeonhole

  function Names(names: seq<string>): set<string> {
    set n | n in names
  }

  lemma {:induction false} NamesCount(names: seq<string>)
    ensures |Names(names)| <= |names|
    ensures |Names(names)| == |names| <==> Distinct(names)
  {
    if names != [] {
      var first, rest := names[0], names[1..];
      NamesCount(rest);
      assert Names(names) == Names(rest) + {first};
      if first in rest {
        var j :| 0 <= j < |rest| && rest[j] == first;
        assert names[0] == names[j + 1];
        assert Names(names) == Names(rest);
      } else {
        assert forall i, j :: 0 <= i < j < |names| && i > 0 ==> names[i] == rest[i - 1] && names[j] == rest[j - 1];
        assert Distinct(names) ==> Distinct(rest);
      }
    }
  }

  lemma {:induction false} DistinctExactlyWhen(names: seq<string>)
    ensures Distinct(names) <==> forall n :: n in names ==> multiset(names)[n] == 1
  {
    if names != [] {
      var first, rest := names[0], names[1..];
      DistinctExactlyWhen(rest);
      assert names == [first] + rest && multiset(names) == multiset{first} + multiset(rest);
      if Distinct(names) {
        assert first !in rest && Distinct(rest);
      } else if Distinct(rest) {
        assert first in rest && multiset(names)[first] > 1;
      } else {
        var n :| n in rest && multiset(rest)[n] != 1;
        assert n in names && multiset(names)[n] > 1;
      }
    }
  }

  /** References to a disk and occurrences of its name are counted alike. */
  lemma {:induction false} CountedAlike(refs: seq<DeviceRef>, name: string)
    ensures multiset(refs)[DeviceRef(DISK, name)] == multiset(DiskNames(refs))[name]
  {
    if refs != [] {
      CountedAlike(refs[1..], name);
      assert refs == [refs[0]] + refs[1..];
    }
  }

  lemma InDiskNames(refs: seq<DeviceRef>, name: string)
    ensures name in DiskNames(refs) <==> DeviceRef(DISK, name) in refs
  {
    CountedAlike(refs, name);
    assert name in DiskNames(refs) <==> multiset(DiskNames(refs))[name] > 0;
    assert DeviceRef(DISK, name) in refs <==> multiset(refs)[DeviceRef(DISK, name)] > 0;
  }

  /** The first two rules: templates and references name the same disks. */
  lemma SameNames(p: PoolSpec)
    requires p.refs.Some?
    ensures EveryTemplateReferenced(p) && EveryDiskKnown(p) <==>
            Names(p.templates) == Names(DiskNames(p.refs.value))
  {
    var refs := p.refs.value;
    forall n: string
      ensures n in DiskNames(refs) <==> DeviceRef(DISK, n) in refs
    {
      InDiskNames(refs, n);
    }
    assert EveryTemplateReferenced(p) <==> forall t :: t in p.templates ==> DeviceRef(DISK, t) in refs;
    assert EveryDiskKnown(p) <==> forall n :: DeviceRef(DISK, n) in refs ==> n in p.templates by {
      assert forall r :: r in refs && r.kind == DISK ==> r == DeviceRef(DISK, r.name);
    }
    if Names(p.templates) == Names(DiskNames(refs)) {
      assert forall n :: n in p.templates <==> n in Names(p.templates);
      assert forall n :: n in DiskNames(refs) <==> n in Names(DiskNames(refs));
    }
  }

  lemma OneToOneNames(p: PoolSpec)
    requires p.refs.Some?
    ensures OneToOne(p) <==>
            Names(p.templates) == Names(DiskNames(p.refs.value)) && Distinct(DiskNames(p.refs.value))
  {
    var refs, disks := p.refs.value, DiskNames(p.refs.value);
    SameNames(p);
    DistinctExactlyWhen(disks);
    forall n: string
      ensures multiset(refs)[DeviceRef(DISK, n)] == multiset(disks)[n]
    {
      CountedAlike(refs, n);
    }
    if OneToOne(p) {
      assert EveryTemplateReferenced(p) by {
        forall t | t in p.templates
          ensures DeviceRef(DISK, t) in refs
        {
          assert multiset(refs)[DeviceRef(DISK, t)] == 1;
        }
      }
      assert forall n :: n in disks ==> n in Names(p.templates);
    } else if Names(p.templates) == Names(disks) && Distinct(disks) {
      forall t | t in p.templates
        ensures multiset(refs)[DeviceRef(DISK, t)] == 1
      {
        assert t in Names(disks);
      }
    }
  }

  /** For unique templates the three rules say exactly that references are one to one. */
  lemma RulesAreOneToOne(p: PoolSpec)
    requires Distinct(p.templates)
    ensures EveryTemplateReferenced(p) && EveryDiskKnown(p) && SameCount(p) <==> OneToOne(p)
  {
    if p.refs.Some? {
      SameNames(p);
      OneToOneNames(p);
      NamesCount(p.templates);
      NamesCount(DiskNames(p.refs.value));
    }
  }

  /** For specs that pass the rules, references are one to one only if templates are unique. */
  lemma OneToOneExactlyWhen(p: PoolSpec)
    requires EveryTemplateReferenced(p) && EveryDiskKnown(p) && SameCount(p)
    ensures OneToOne(p) <==> Distinct(p.templates)
  {
    SameNames(p);
    OneToOneNames(p);
    NamesCount(p.templates);
    NamesCount(DiskNames(p.refs.value));
  }

  /** Unique names are needed: the rules alone let a disk be referenced twice. */
  lemma RulesAloneAreNotEnough()
    ensures var a, b := DeviceRef(DISK, "a"), DeviceRef(DISK, "b");
            var p := PoolSpec(["a", "a", "b"], Some([a, b, b]));
            EveryTemplateReferenced(p) && EveryDiskKnown(p) && SameCount(p) && !OneToOne(p)
  {
    var a, b := DeviceRef(DISK, "a"), DeviceRef(DISK, "b");
    var refs := [a, b, b];
    var p := PoolSpec(["a", "a", "b"], Some(refs));
    assert refs[0] == a && refs[1] == b;
    assert refs[1..] == [b, b] && [b, b][1..] == [b] && [b][1..] == [];
    assert DiskNames([b]) == ["b"] && DiskNames([b, b]) == ["b"] + ["b"];
    assert |DiskNames(refs)| == 3;
    assert multiset(refs)[b] == 2 && "b" in p.templates;
    assert EveryDiskKnown(p) by {
      assert p.templates[0] == "a" && p.templates[2] == "b";
    }
  }
}
