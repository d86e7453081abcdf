/** Expected checksums: how they are written down, and how a stream is checked against them. */
module Checksum {
  import opened Bytes
  import opened Text
  import opened Wrappers

  const SUPPORTED: set<string> := {"md5", "sha1", "sha256", "sha512", "streebog256", "streebog512"}

  /** Every expected sum is the hash of the data. The hash functions are parameters. */
  predicate AllMatch(hash: (string, Bytes) -> string, sums: map<string, string>, data: Bytes) {
    forall a | a in sums :: hash(a, data) == sums[a]
  }

  datatype Parsed = Sums(sums: map<string, string>) | Malformed | Unsupported

  datatype Pair = Pair(algorithm: string, sum: string)

  // ---------------------------------------------------------------- text

  function LowerChar(c: char): char {
    if 'A' <= c <= 'Z' then (c as int - 'A' as int + 'a' as int) as char else c
  }

  function Lower(s: string): string {
    seq(|s|, i requires 0 <= i < |s| => LowerChar(s[i]))
  }

  /** Upper-case letters move up by 32 in code, and nothing else changes. */
  lemma LowerByCodes(s: string, i: nat)
    requires i < |s|
    ensures |Lower(s)| == |s|
    ensures Lower(s)[i] as int == s[i] as int + (if 65 <= s[i] as int <= 90 then 32 else 0)
  {
  }

  /** What is before and after the first colon. */
  function Cut(s: string): Option<Pair> {
    if s == [] then None
    else if s[0] == ':' then Some(Pair("", s[1..]))
    else
      match Cut(s[1..])
      case None => None
      case Some(p) => Some(Pair([s[0]] + p.algorithm, p.sum))
  }

  /** What a part of the value says: a pair, or the complaint about it. */
  predicate WellFormed(part: string) {
    Cut(part).Some? && Cut(part).value.algorithm != "" && Cut(part).value.sum != ""
  }

  predicate Accepted(part: string) {
    WellFormed(part) && Cut(part).value.algorithm in SUPPORTED
  }

  predicate AllAccepted(parts: seq<string>) {
    forall i :: 0 <= i < |parts| ==> Accepted(parts[i])
  }

  predicate FirstBad(parts: seq<string>, i: nat) {
    i < |parts| && !Accepted(parts[i]) && AllAccepted(parts[..i])
  }

  /** The map that accepted parts spell: later parts win. */
  function Spelled(parts: seq<string>): map<string, string>
    requires AllAccepted(parts)
  {
    if parts == [] then map[]
    else
      var last := parts[|parts| - 1];
      assert Accepted(last);
      var p := Cut(last).value;
      Spelled(parts[..|parts| - 1])[p.algorithm := Lower(p.sum)]
  }

  /**
    A value parses exactly if it is empty or all of its parts are accepted; the first part
    that is not decides about the error.
  */
  method ParseChecksums(value: string) returns (r: Parsed)
    ensures value == "" ==> r == Sums(map[])
    ensures value != "" && AllAccepted(Split(value, ',')) ==> r == Sums(Spelled(Split(value, ',')))
    ensures !r.Sums? <==> value != "" && !AllAccepted(Split(value, ','))
    ensures !r.Sums? ==>
              exists i: nat :: FirstBad(Split(value, ','), i) && (r == Malformed <==> !WellFormed(Split(value, ',')[i]))
    ensures r.Sums? ==> r.sums.Keys <= SUPPORTED
  {
    if value == "" {
      return Sums(map[]);
    }
    var parts := Split(value, ',');
    var sums := map[];
    for i := 0 to |parts|
      invariant AllAccepted(parts[..i])
      invariant sums == Spelled(parts[..i]) && sums.Keys <= SUPPORTED
    {
      var p := Cut(parts[i]);
      if p.None? || p.value.algorithm == "" || p.value.sum == "" {
        assert FirstBad(parts, i) && !WellFormed(parts[i]);
        return Malformed;
      }
      if p.value.algorithm !in SUPPORTED {
        assert FirstBad(parts, i) && WellFormed(parts[i]);
        return Unsupported;
      }
      assert parts[..i + 1][..i] == parts[..i];
      sums := sums[p.value.algorithm := Lower(p.value.sum)];
    }
    assert parts[..|parts|] == parts;
    return Sums(sums);
  }

  /** `NewDataProcessor` refuses algorithms it has no hash for. */
  method AcceptsChecksums(sums: map<string, string>) returns (ok: bool)
    ensures ok <==> sums.Keys <= {"md5", "sha1", "sha256", "sha512", "streebog256", "streebog512"}
  {
    var left := sums.Keys;
    while left != {}
      invariant left <= sums.Keys && sums.Keys - left <= SUPPORTED
      decreases left
    {
      var a :| a in left;
      if a !in SUPPORTED {
        return false;
      }
      left := left - {a};
    }
    return true;
  }

  // ---------------------------------------------------------------- printing and parsing

  function PrintPair(p: Pair): string {
    p.algorithm + ":" + p.sum
  }

  function PrintedParts(ps: seq<Pair>): (parts: seq<string>)
    ensures |parts| == |ps|
  {
    seq(|ps|, i requires 0 <= i < |ps| => PrintPair(ps[i]))
  }

  function PrintPairs(ps: seq<Pair>): string {
    Join(PrintedParts(ps), ',')
  }

  /** A pair that can be written down and read back. */
  predicate Printable(p: Pair) {
    && p.algorithm in {"md5", "sha1", "sha256", "sha512", "streebog256", "streebog512"}
    && p.sum != "" && ',' !in p.sum
  }

  lemma SupportedIsPlain(a: string)
    requires a in SUPPORTED
    ensures a != "" && ':' !in a && ',' !in a
  {
  }

  /** There is something to cut exactly if there is a colon. */
  lemma {:induction false} CutExactlyWhen(s: string)
    ensures Cut(s) == None <==> ':' !in s
  {
    if s != [] {
      CutExactlyWhen(s[1..]);
    }
  }

  lemma {:induction false} CutAfter(a: string, b: string)
    requires ':' !in a
    ensures Cut(a + ":" + b) == Some(Pair(a, b))
  {
    if a == [] {
      assert a + ":" + b == ":" + b && (":" + b)[1..] == b;
    } else {
      CutAfter(a[1..], b);
      assert (a + ":" + b)[1..] == a[1..] + ":" + b;
      assert [a[0]] + a[1..] == a;
    }
  }

  lemma PrintedPart(p: Pair)
    requires Printable(p)
    ensures ',' !in PrintPair(p) && Cut(PrintPair(p)) == Some(p) && Accepted(PrintPair(p))
  {
    SupportedIsPlain(p.algorithm);
    CutAfter(p.algorithm, p.sum);
  }

  lemma SplitPrinted(ps: seq<Pair>)
    requires ps != [] && forall i :: 0 <= i < |ps| ==> Printable(ps[i])
    ensures PrintPairs(ps) != ""
    ensures Split(PrintPairs(ps), ',') == PrintedParts(ps)
  {
    var parts := PrintedParts(ps);
    forall i | 0 <= i < |parts|
      ensures ',' !in parts[i] && parts[i] != ""
    {
      PrintedPart(ps[i]);
    }
    SplitJoin(parts, ',');
  }

  /** The pairs of a map in some order. */
  predicate Lists(ps: seq<Pair>, m: map<string, string>) {
    && (forall i :: 0 <= i < |ps| ==> ps[i].algorithm in m && m[ps[i].algorithm] == ps[i].sum)
    && (forall a :: a in m ==> Pair(a, m[a]) in ps)
    && (forall i, j :: 0 <= i < j < |ps| ==> ps[i].algorithm != ps[j].algorithm)
  }

  function Lowered(m: map<string, string>): map<string, string> {
    map a | a in m :: Lower(m[a])
  }

  /** The map that pairs spell. */
  function MapOf(ps: seq<Pair>): map<string, string> {
    if ps == [] then map[]
    else
      var p := ps[|ps| - 1];
      MapOf(ps[..|ps| - 1])[p.algorithm := Lower(p.sum)]
  }

  lemma {:induction false} SpelledIsMapOf(parts: seq<string>, ps: seq<Pair>)
    requires |parts| == |ps|
    requires forall i :: 0 <= i < |ps| ==> Accepted(parts[i]) && Cut(parts[i]) == Some(ps[i])
    ensures Spelled(parts) == MapOf(ps)
  {
    if parts != [] {
      var n := |parts| - 1;
      SpelledIsMapOf(parts[..n], ps[..n]);
      assert Cut(parts[n]) == Some(ps[n]);
    }
  }

  lemma LoweredWithout(m: map<string, string>, a: string)
    requires a in m
    ensures Lowered(m) == Lowered(m - {a})[a := Lower(m[a])]
  {
  }

  lemma {:induction false} MapOfListed(ps: seq<Pair>, m: map<string, string>)
    requires Lists(ps, m)
    ensures MapOf(ps) == Lowered(m)
  {
    if ps == [] {
      assert m == map[];
    } else {
      var n := |ps| - 1;
      var a := ps[n].algorithm;
      ListedWithoutLast(ps, m);
      MapOfListed(ps[..n], m - {a});
      LoweredWithout(m, a);
    }
  }

  lemma ListedWithoutLast(ps: seq<Pair>, m: map<string, string>)
    requires ps != [] && Lists(ps, m)
    ensures Lists(ps[..|ps| - 1], m - {ps[|ps| - 1].algorithm})
  {
    var n := |ps| - 1;
    var rest, m' := ps[..n], m - {ps[n].algorithm};
    forall a | a in m'
      ensures Pair(a, m'[a]) in rest
    {
      var i :| 0 <= i < |ps| && ps[i] == Pair(a, m[a]);
      assert rest[i] == Pair(a, m'[a]);
    }
  }

  /** Any map of supported algorithms, printed in any order, parses back in lower case. */
  lemma ParsePrinted(m: map<string, string>, ps: seq<Pair>)
    requires Lists(ps, m)
    requires forall a :: a in m ==> Printable(Pair(a, m[a]))
    ensures PrintPairs(ps) == "" <==> m == map[]
    ensures m != map[] ==>
              var parts := Split(PrintPairs(ps), ',');
              AllAccepted(parts) && Spelled(parts) == Lowered(m)
  {
    if ps == [] {
      assert m == map[];
    } else {
      assert ps[0].algorithm in m;
      forall i | 0 <= i < |ps|
        ensures Printable(ps[i])
      {
        assert ps[i] == Pair(ps[i].algorithm, m[ps[i].algorithm]);
      }
      SplitPrinted(ps);
      var parts := Split(PrintPairs(ps), ',');
      forall i | 0 <= i < |ps|
        ensures Accepted(parts[i]) && Cut(parts[i]) == Some(ps[i])
      {
        PrintedPart(ps[i]);
      }
      SpelledIsMapOf(parts, ps);
      MapOfListed(ps, m);
    }
  }

  /** The way a map takes through the environment of an importer. */
  method PrintThenParse(m: map<string, string>, ps: seq<Pair>) returns (r: Parsed)
    requires Lists(ps, m)
    requires forall a :: a in m ==> Printable(Pair(a, m[a]))
    ensures r == Sums(Lowered(m))
  {
    ParsePrinted(m, ps);
    r := ParseChecksums(PrintPairs(ps));
    if m == map[] {
      assert Lowered(m) == map[];
    }
  }

  // ---------------------------------------------------------------- checking

  /** Byte-wise order of names. */
  predicate Less(a: string, b: string) {
    if b == [] then false
    else if a == [] then true
    else a[0] < b[0] || (a[0] == b[0] && Less(a[1..], b[1..]))
  }

  /** Where the order is decided: `a` ends first, or has the smaller character. */
  predicate DecidedAt(a: string, b: string, k: nat) {
    k <= |a| && k < |b| && a[..k] == b[..k] && (k == |a| || a[k] < b[k])
  }

  /** The order is decided at the first place where two names differ. */
  lemma {:induction false} LessExactlyWhen(a: string, b: string)
    ensures Less(a, b) <==> exists k :: DecidedAt(a, b, k)
  {
    if a == [] {
      if b != [] {
        assert DecidedAt(a, b, 0);
      }
    } else if b != [] {
      LessExactlyWhen(a[1..], b[1..]);
      if a[0] < b[0] {
        assert DecidedAt(a, b, 0);
      }
      if a[0] == b[0] && Less(a[1..], b[1..]) {
        var k: nat :| DecidedAt(a[1..], b[1..], k);
        assert a[..k + 1] == [a[0]] + a[1..][..k] && b[..k + 1] == [b[0]] + b[1..][..k];
        assert DecidedAt(a, b, k + 1);
      }
      if k: nat :| DecidedAt(a, b, k) && k > 0 {
        assert a[0] == a[..k][0] == b[..k][0] == b[0];
        assert a[1..][..k - 1] == a[..k][1..] && b[1..][..k - 1] == b[..k][1..];
        assert DecidedAt(a[1..], b[1..], k - 1);
      }
    }
  }

  lemma {:induction false} LessIsTotal(a: string, b: string)
    ensures a == b || Less(a, b) || Less(b, a)
    ensures !(Less(a, b) && Less(b, a)) && (a == b ==> !Less(a, b))
  {
    if a != [] && b != [] {
      LessIsTotal(a[1..], b[1..]);
      assert a == [a[0]] + a[1..] && b == [b[0]] + b[1..];
    }
  }

  lemma {:induction false} LessIsTransitive(a: string, b: string, c: string)
    requires Less(a, b) && Less(b, c)
    ensures Less(a, c)
  {
    if a != [] && a[0] == b[0] == c[0] {
      LessIsTransitive(a[1..], b[1..], c[1..]);
    }
  }

  predicate Sorted(names: seq<string>) {
    forall i, j :: 0 <= i < j < |names| ==> Less(names[i], names[j])
  }

  /** Puts a name where it belongs. */
  method Insert(names: seq<string>, name: string) returns (r: seq<string>)
    requires Sorted(names) && name !in names
    ensures Sorted(r) && (forall a :: a in r <==> a == name || a in names)
  {
    var i := 0;
    while i < |names| && Less(names[i], name)
      invariant 0 <= i <= |names| && forall k :: 0 <= k < i ==> Less(names[k], name)
    {
      i := i + 1;
    }
    forall k | i <= k < |names|
      ensures Less(name, names[k])
    {
      LessIsTotal(name, names[i]);
      if k > i {
        LessIsTransitive(name, names[i], names[k]);
      }
    }
    r := names[..i] + [name] + names[i..];
    InsertedMembers(names, i, name);
  }

  lemma InsertedMembers(names: seq<string>, i: nat, name: string)
    requires i <= |names|
    ensures forall a :: a in names[..i] + [name] + names[i..] <==> a == name || a in names
  {
    assert names == names[..i] + names[i..];
  }

  /** The algorithms of a map in the one order that does not depend on how it is walked. */
  method SortedAlgorithms(sums: map<string, string>) returns (names: seq<string>)
    ensures Sorted(names) && (forall a :: a in names <==> a in sums)
  {
    names := [];
    var left := sums.Keys;
    while left != {}
      invariant left <= sums.Keys && Sorted(names)
      invariant forall a :: a in names <==> a in sums && a !in left
      decreases left
    {
      var a :| a in left;
      names := Insert(names, a);
      left := left - {a};
    }
  }

  /**
    The checks after the data has been read to the end: all of them pass exactly if every
    hash of the data is the expected one, and otherwise the first algorithm in order fails.
  */
  method RunChecks(hash: (string, Bytes) -> string, sums: map<string, string>, data: Bytes)
    returns (bad: Option<string>)
    ensures bad == None <==> AllMatch(hash, sums, data)
    ensures bad.Some? ==>
              && bad.value in sums && hash(bad.value, data) != sums[bad.value]
              && forall a :: a in sums && Less(a, bad.value) ==> hash(a, data) == sums[a]
  {
    var names := SortedAlgorithms(sums);
    for i := 0 to |names|
      invariant forall k :: 0 <= k < i ==> names[k] in sums && hash(names[k], data) == sums[names[k]]
    {
      assert names[i] in names;
      if hash(names[i], data) != sums[names[i]] {
        forall a | a in sums && Less(a, names[i])
          ensures hash(a, data) == sums[a]
        {
          var k :| 0 <= k < |names| && names[k] == a;
          LessIsTotal(names[i], names[k]);
        }
        return Some(names[i]);
      }
    }
    return None;
  }
}
