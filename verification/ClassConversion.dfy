/**
  Conversion of virtual machine classes between v1alpha2, where core fractions are numbers,
  and v1alpha3, where they are percentages written out.
*/
module ClassConversion {

  datatype Ptr<T> = Null | Ref(value: T)

  /** A Go slice: a nil one and an empty one are different values. */
  datatype Slice<T> = NilSlice | Slice(elems: seq<T>)

  function Elems<T>(s: Slice<T>): seq<T> {
    if s.NilSlice? then [] else s.elems
  }

  /** What `make` and a loop leave of a list that is skipped when it is empty. */
  function FromElems<T>(es: seq<T>): Slice<T> {
    if es == [] then NilSlice else Slice(es)
  }

  datatype IntOrString = IntVal(n: int) | StrVal(s: string) | OddType

  datatype MinMax = MinMax(min: Ptr<int>, max: Ptr<int>)

  datatype MemoryV2 = MemoryV2(limits: MinMax, step: Ptr<int>, perCore: Ptr<MinMax>)
  datatype MemoryV3 = MemoryV3(limits: MinMax, step: Ptr<int>, perCore: Ptr<MinMax>)

  datatype CoresV2 = CoresV2(min: int, max: int, step: int)
  datatype CoresV3 = CoresV3(min: int, max: int, step: int)

  datatype PolicyV2 = PolicyV2(
    memory: Ptr<MemoryV2>, coreFractions: Slice<int>, defaultFraction: Ptr<IntOrString>,
    dedicatedCores: Slice<bool>, cores: Ptr<CoresV2>)

  datatype PolicyV3 = PolicyV3(
    memory: Ptr<MemoryV3>, coreFractions: Slice<string>, defaultFraction: Ptr<string>,
    dedicatedCores: Slice<bool>, cores: Ptr<CoresV3>)

  /** The parts that both versions share, as they are stored. */
  datatype Placement = Placement(
    matchLabels: map<string, string>, matchExpressions: Slice<string>, tolerations: Slice<string>,
    cpuType: string, cpuModel: string, cpuFeatures: Slice<string>, discovery: Ptr<string>)

  datatype SpecV2 = SpecV2(placement: Placement, policies: Slice<PolicyV2>)
  datatype SpecV3 = SpecV3(placement: Placement, policies: Slice<PolicyV3>)

  datatype Where = AtFraction(j: nat) | AtDefault

  /** Errors name the policy and the field. */
  datatype Result<T> = Ok(value: T) | Err(policy: nat, at: Where)

  const AUTO := "Auto"

  // ---------------------------------------------------------------- percentages

  predicate Digit(c: char) {
    '0' <= c <= '9'
  }

  predicate NonZero(c: char) {
    '1' <= c <= '9'
  }

  /** The expression the conversion checks: ^([1-9]|[1-9][0-9]|100)%$ */
  predicate IsPercent(s: string) {
    || (|s| == 2 && NonZero(s[0]) && s[1] == '%')
    || (|s| == 3 && NonZero(s[0]) && Digit(s[1]) && s[2] == '%')
    || s == "100%"
  }

  /** The pattern of the v1alpha3 schema: ^(100|[1-9][0-9]?)%$ */
  predicate SchemaPercent(s: string) {
    |s| > 0 && s[|s| - 1] == '%'
    && var body := s[..|s| - 1];
       body == "100" || (1 <= |body| <= 2 && NonZero(body[0]) && (|body| == 2 ==> Digit(body[1])))
  }

  lemma SchemaIsWhatIsChecked(s: string)
    ensures SchemaPercent(s) <==> IsPercent(s)
  {
    if s == "100%" {
      assert s[..3] == "100";
    }
    if SchemaPercent(s) && s[..|s| - 1] == "100" {
      assert s == s[..|s| - 1] + [s[|s| - 1]];
    }
  }

  function DigitValue(c: char): nat
    requires Digit(c)
  {
    c as nat - '0' as nat
  }

  /** Reads a run of digits. */
  function Atoi(s: string): nat
    requires forall i :: 0 <= i < |s| ==> Digit(s[i])
  {
    if s == [] then 0 else 10 * Atoi(s[..|s| - 1]) + DigitValue(s[|s| - 1])
  }

  function ParsePercent(s: string): nat
    requires IsPercent(s)
  {
    Atoi(s[..|s| - 1])
  }

  function DigitChar(d: nat): char
    requires d < 10
  {
    ('0' as int + d) as char
  }

  function Decimal(n: nat): string {
    if n < 10 then [DigitChar(n)] else Decimal(n / 10) + [DigitChar(n % 10)]
  }

  /** The number as `%d%%` prints it. */
  function PrintPercent(n: int): string {
    (if n < 0 then "-" + Decimal(-n) else Decimal(n)) + "%"
  }

  lemma {:induction false} DecimalIsDigits(n: nat)
    ensures Decimal(n) != [] && forall i :: 0 <= i < |Decimal(n)| ==> Digit(Decimal(n)[i])
    ensures Atoi(Decimal(n)) == n
  {
    if n >= 10 {
      DecimalIsDigits(n / 10);
      var s := Decimal(n);
      assert s[..|s| - 1] == Decimal(n / 10);
    } else {
      assert [DigitChar(n)][..0] == [];
    }
  }

  /** Numbers print into the percentage language exactly if they are percentages. */
  lemma PrintsPercentExactlyWhen(n: int)
    ensures IsPercent(PrintPercent(n)) <==> 1 <= n <= 100
    ensures 1 <= n <= 100 ==> ParsePercent(PrintPercent(n)) == n
  {
    var s := PrintPercent(n);
    if n < 0 {
      assert s[0] == '-';
    } else {
      var d := Decimal(n);
      DecimalIsDigits(n);
      DecimalLength(n);
      assert s[..|d|] == d && s[|d|] == '%';
      assert "100%"[..3] == "100";
    }
  }

  lemma DecimalLength(n: nat)
    ensures n < 10 ==> Decimal(n) == [DigitChar(n)]
    ensures 10 <= n < 100 ==> Decimal(n) == [DigitChar(n / 10), DigitChar(n % 10)]
    ensures n == 100 ==> Decimal(n) == "100"
    ensures n > 100 ==> |Decimal(n)| >= 3 && Decimal(n) != "100"
  {
    if n > 100 {
      DecimalIsDigits(n);
      if Decimal(n) == "100" {
        DecimalIsDigits(100);
      }
    }
  }

  lemma DigitRoundTrip(c: char)
    requires Digit(c)
    ensures DigitValue(c) < 10 && DigitChar(DigitValue(c)) == c
  {
  }

  lemma LastDigit(m: nat, d: nat)
    requires m >= 1 && d < 10
    ensures 10 * m + d >= 10 && (10 * m + d) / 10 == m && (10 * m + d) % 10 == d
  {
  }

  /** A number without leading zeros prints back as it was. */
  lemma {:induction false} DecimalOfAtoi(s: string)
    requires s != [] && NonZero(s[0]) && forall i :: 0 <= i < |s| ==> Digit(s[i])
    ensures Atoi(s) >= 1 && Decimal(Atoi(s)) == s
  {
    var init, last := s[..|s| - 1], s[|s| - 1];
    DigitRoundTrip(last);
    if init == [] {
      assert s == [last];
    } else {
      DecimalOfAtoi(init);
      LastDigit(Atoi(init), DigitValue(last));
      assert s == init + [last];
    }
  }

  /** And what is in the language prints back as it was. */
  lemma PercentRoundTrip(s: string)
    requires IsPercent(s)
    ensures 1 <= ParsePercent(s) <= 100 && PrintPercent(ParsePercent(s)) == s
  {
    var body := s[..|s| - 1];
    assert s == body + "%";
    if s == "100%" {
      assert body == "100";
    }
    AtoiShort(body);
    DecimalOfAtoi(body);
  }

  lemma AtoiShort(s: string)
    requires forall i :: 0 <= i < |s| ==> Digit(s[i])
    ensures |s| == 1 ==> Atoi(s) == DigitValue(s[0]) < 10
    ensures |s| == 2 ==> Atoi(s) == 10 * DigitValue(s[0]) + DigitValue(s[1]) < 100
    ensures s == "100" ==> Atoi(s) == 100
  {
    if |s| >= 1 {
      assert s[..1][..0] == [];
    }
    if |s| >= 2 {
      assert s[..2][..1] == s[..1];
      assert Atoi(s[..2]) == 10 * Atoi(s[..1]) + DigitValue(s[1]);
    }
    if |s| == 2 {
      assert s[..2] == s;
    }
  }

  // ---------------------------------------------------------------- by character codes

  /** The number that decimal digits denote, by their codes. */
  function CodeValue(s: string): int {
    if s == [] then 0 else 10 * CodeValue(s[..|s| - 1]) + (s[|s| - 1] as int - 48)
  }

  lemma {:induction false} AtoiIsCodeValue(s: string)
    requires forall i :: 0 <= i < |s| ==> Digit(s[i])
    ensures Atoi(s) == CodeValue(s)
  {
    if s != [] {
      AtoiIsCodeValue(s[..|s| - 1]);
    }
  }

  /** A number prints as digits that denote it, without a leading zero. */
  lemma {:induction false} DecimalByCodes(n: nat)
    ensures CodeValue(Decimal(n)) == n && Decimal(n) != []
    ensures forall i :: 0 <= i < |Decimal(n)| ==> 48 <= Decimal(n)[i] as int <= 57
    ensures n > 0 ==> Decimal(n)[0] as int != 48
  {
    if n >= 10 {
      DecimalByCodes(n / 10);
      assert Decimal(n)[..|Decimal(n)| - 1] == Decimal(n / 10);
    } else {
      assert [DigitChar(n)][..0] == [];
    }
  }

  /** What a percentage reads as, digit by digit. */
  lemma ParsePercentByCodes(s: string)
    requires IsPercent(s)
    ensures |s| == 2 ==> ParsePercent(s) == s[0] as int - 48
    ensures |s| == 3 ==> ParsePercent(s) == 10 * (s[0] as int - 48) + (s[1] as int - 48)
    ensures s == "100%" ==> ParsePercent(s) == 100
  {
    AtoiShort(s[..|s| - 1]);
    if s == "100%" {
      assert s[..3] == "100";
    }
  }

  /** How a percentage is printed, digit by digit. */
  lemma PrintPercentByCodes(n: int)
    ensures 0 <= n < 10 ==> PrintPercent(n) == [(48 + n) as char, '%']
    ensures 10 <= n < 100 ==> PrintPercent(n) == [(48 + n / 10) as char, (48 + n % 10) as char, '%']
    ensures n == 100 ==> PrintPercent(n) == "100%"
  {
    if n >= 0 {
      DecimalLength(n);
    }
  }

  /** The number that a text with a percent sign denotes. */
  function Denoted(s: string): int {
    if s == [] then 0
    else if s[0] == '-' then -CodeValue(s[1..|s| - (if |s| > 1 then 1 else 0)])
    else CodeValue(s[..|s| - 1])
  }

  lemma PrintPercentDenotes(n: int)
    ensures PrintPercent(n) != [] && PrintPercent(n)[|PrintPercent(n)| - 1] == '%'
    ensures Denoted(PrintPercent(n)) == n
  {
    var s := PrintPercent(n);
    if n >= 0 {
      DecimalByCodes(n);
      assert s[..|s| - 1] == Decimal(n) && s[0] == Decimal(n)[0];
    } else {
      DecimalByCodes(-n);
      assert s[0] == '-' && s[1..|s| - 1] == Decimal(-n);
    }
  }

  /** Versions that mean the same class have the same numbers, whatever prints them. */
  lemma SameDenotes(v2: SpecV2, v3: SpecV3, i: nat)
    requires Same(v2, v3) && i < |Elems(v2.policies)|
    ensures i < |Elems(v3.policies)|
    ensures var f2, f3 := Elems(Elems(v2.policies)[i].coreFractions), Elems(Elems(v3.policies)[i].coreFractions);
            |f2| == |f3| && forall j :: 0 <= j < |f2| ==> Denoted(f3[j]) == f2[j]
    ensures var d2, d3 := Elems(v2.policies)[i].defaultFraction, Elems(v3.policies)[i].defaultFraction;
            && (d2.Null? <==> d3.Null?)
            && (d2.Ref? && d2.value.IntVal? ==> Denoted(d3.value) == d2.value.n)
            && (d2.Ref? && d2.value.StrVal? ==> d2.value.s == d3.value == "Auto")
  {
    var p2, p3 := Elems(v2.policies)[i], Elems(v3.policies)[i];
    assert SamePolicy(p2, p3);
    forall j | 0 <= j < |Elems(p2.coreFractions)|
      ensures Denoted(Elems(p3.coreFractions)[j]) == Elems(p2.coreFractions)[j]
    {
      PrintPercentDenotes(Elems(p2.coreFractions)[j]);
    }
    if p2.defaultFraction.Ref? && p2.defaultFraction.value.IntVal? {
      PrintPercentDenotes(p2.defaultFraction.value.n);
    }
  }

  // ---------------------------------------------------------------- what the versions say alike

  predicate SameMemory(m2: Ptr<MemoryV2>, m3: Ptr<MemoryV3>) {
    match (m2, m3)
    case (Null, Null) => true
    case (Ref(a), Ref(b)) => a.limits == b.limits && a.step == b.step && a.perCore == b.perCore
    case _ => false
  }

  predicate SameCores(c2: Ptr<CoresV2>, c3: Ptr<CoresV3>) {
    match (c2, c3)
    case (Null, Null) => true
    case (Ref(a), Ref(b)) => a.min == b.min && a.max == b.max && a.step == b.step
    case _ => false
  }

  predicate SameDefault(d2: Ptr<IntOrString>, d3: Ptr<string>) {
    match (d2, d3)
    case (Null, Null) => true
    case (Ref(IntVal(n)), Ref(s)) => 1 <= n <= 100 && s == PrintPercent(n)
    case (Ref(StrVal(a)), Ref(s)) => a == s == "Auto"
    case _ => false
  }

  predicate SamePolicy(p2: PolicyV2, p3: PolicyV3) {
    && SameMemory(p2.memory, p3.memory) && SameCores(p2.cores, p3.cores)
    && p2.dedicatedCores == p3.dedicatedCores
    && SameDefault(p2.defaultFraction, p3.defaultFraction)
    && |Elems(p2.coreFractions)| == |Elems(p3.coreFractions)|
    && forall j :: 0 <= j < |Elems(p2.coreFractions)| ==>
                   Elems(p3.coreFractions)[j] == PrintPercent(Elems(p2.coreFractions)[j])
  }

  /** Both versions of a spec mean the same class. */
  predicate Same(v2: SpecV2, v3: SpecV3) {
    && v2.placement == v3.placement
    && |Elems(v2.policies)| == |Elems(v3.policies)|
    && forall i :: 0 <= i < |Elems(v2.policies)| ==> SamePolicy(Elems(v2.policies)[i], Elems(v3.policies)[i])
  }

  /** Lists the conversion rebuilds are never empty but not nil. */
  predicate NormalList<T>(s: Slice<T>) {
    s.NilSlice? || s.elems != []
  }

  predicate NormalV2(v: SpecV2) {
    NormalList(v.policies) && forall i :: 0 <= i < |Elems(v.policies)| ==> NormalList(Elems(v.policies)[i].coreFractions)
  }

  predicate NormalV3(v: SpecV3) {
    NormalList(v.policies) && forall i :: 0 <= i < |Elems(v.policies)| ==> NormalList(Elems(v.policies)[i].coreFractions)
  }

  // ---------------------------------------------------------------- v1alpha3 to v1alpha2

  predicate DefaultOk(d: Ptr<string>) {
    d.Null? || d.value == "Auto" || IsPercent(d.value)
  }

  predicate PolicyOk(p: PolicyV3) {
    (forall j :: 0 <= j < |Elems(p.coreFractions)| ==> IsPercent(Elems(p.coreFractions)[j]))
    && DefaultOk(p.defaultFraction)
  }

  /** The place of the first error in a policy. */
  predicate FirstErrorIn(p: PolicyV3, at: Where) {
    match at
    case AtFraction(j) =>
      && j < |Elems(p.coreFractions)| && !IsPercent(Elems(p.coreFractions)[j])
      && forall k :: 0 <= k < j ==> IsPercent(Elems(p.coreFractions)[k])
    case AtDefault =>
      && !DefaultOk(p.defaultFraction)
      && forall k :: 0 <= k < |Elems(p.coreFractions)| ==> IsPercent(Elems(p.coreFractions)[k])
  }

  method MemoryToV2(m: Ptr<MemoryV3>) returns (r: Ptr<MemoryV2>)
    ensures SameMemory(r, m)
  {
    if m.Null? {
      return Null;
    }
    var perCore := Null;
    if m.value.perCore.Ref? {
      perCore := Ref(MinMax(m.value.perCore.value.min, m.value.perCore.value.max));
    }
    return Ref(MemoryV2(MinMax(m.value.limits.min, m.value.limits.max), m.value.step, perCore));
  }

  /** The language leaves nothing that could fail to parse or be out of range. */
  method ParseFraction(text: string) returns (n: int)
    requires IsPercent(text)
    ensures 1 <= n <= 100 && PrintPercent(n) == text
  {
    PercentRoundTrip(text);
    n := ParsePercent(text);
  }

  method FractionsToV2(fs: Slice<string>) returns (out: seq<int>, bad: nat)
    ensures bad <= |Elems(fs)| && |out| == bad
    ensures forall j :: 0 <= j < bad ==> IsPercent(Elems(fs)[j]) && PrintPercent(out[j]) == Elems(fs)[j]
    ensures bad < |Elems(fs)| ==> !IsPercent(Elems(fs)[bad])
  {
    out := [];
    for j := 0 to |Elems(fs)|
      invariant |out| == j
      invariant forall k :: 0 <= k < j ==> IsPercent(Elems(fs)[k]) && PrintPercent(out[k]) == Elems(fs)[k]
    {
      var text := Elems(fs)[j];
      if !IsPercent(text) {
        return out, j;
      }
      var n := ParseFraction(text);
      out := out + [n];
    }
    return out, |Elems(fs)|;
  }

  method DefaultToV2(d: Ptr<string>) returns (r: Ptr<IntOrString>, ok: bool)
    ensures ok <==> DefaultOk(d)
    ensures ok ==> SameDefault(r, d)
  {
    if d.Null? {
      return Null, true;
    }
    if d.value == AUTO {
      return Ref(StrVal(d.value)), true;
    }
    if !IsPercent(d.value) {
      return Null, false;
    }
    var n := ParseFraction(d.value);
    return Ref(IntVal(n)), true;
  }

  method PolicyToV2(p: PolicyV3, i: nat) returns (r: Result<PolicyV2>)
    ensures r.Ok? <==> PolicyOk(p)
    ensures r.Ok? ==> SamePolicy(r.value, p) && NormalList(r.value.coreFractions)
    ensures r.Err? ==> r.policy == i && FirstErrorIn(p, r.at)
  {
    var memory := MemoryToV2(p.memory);
    var cores := if p.cores.Null? then Null
                 else Ref(CoresV2(p.cores.value.min, p.cores.value.max, p.cores.value.step));
    var fractions, bad := FractionsToV2(p.coreFractions);
    if bad < |Elems(p.coreFractions)| {
      return Err(i, AtFraction(bad));
    }
    var default, ok := DefaultToV2(p.defaultFraction);
    if !ok {
      return Err(i, AtDefault);
    }
    return Ok(PolicyV2(memory, FromElems(fractions), default, p.dedicatedCores, cores));
  }

  /**
    Conversion to v1alpha2 succeeds exactly if every fraction is a percentage, or Auto where
    it is a default; the result then means the same, and a failure names the first culprit.
  */
  method ConvertSpecV3ToV2(v: SpecV3) returns (r: Result<SpecV2>)
    ensures r.Ok? <==> forall i :: 0 <= i < |Elems(v.policies)| ==> PolicyOk(Elems(v.policies)[i])
    ensures r.Ok? ==> Same(r.value, v) && NormalV2(r.value)
    ensures r.Err? ==>
              && r.policy < |Elems(v.policies)| && FirstErrorIn(Elems(v.policies)[r.policy], r.at)
              && forall i :: 0 <= i < r.policy ==> PolicyOk(Elems(v.policies)[i])
  {
    var policies: seq<PolicyV2> := [];
    for i := 0 to |Elems(v.policies)|
      invariant |policies| == i
      invariant forall k :: 0 <= k < i ==>
                  && PolicyOk(Elems(v.policies)[k]) && SamePolicy(policies[k], Elems(v.policies)[k])
                  && NormalList(policies[k].coreFractions)
    {
      var p := PolicyToV2(Elems(v.policies)[i], i);
      if p.Err? {
        return Err(p.policy, p.at);
      }
      policies := policies + [p.value];
    }
    return Ok(SpecV2(v.placement, FromElems(policies)));
  }

  // ---------------------------------------------------------------- v1alpha2 to v1alpha3

  predicate DefaultOkV2(d: Ptr<IntOrString>) {
    d.Null? || (d.value.IntVal? && 1 <= d.value.n <= 100) || d.value == StrVal("Auto")
  }

  method MemoryToV3(m: Ptr<MemoryV2>) returns (r: Ptr<MemoryV3>)
    ensures SameMemory(m, r)
  {
    if m.Null? {
      return Null;
    }
    var perCore := Null;
    if m.value.perCore.Ref? {
      perCore := Ref(MinMax(m.value.perCore.value.min, m.value.perCore.value.max));
    }
    return Ref(MemoryV3(MinMax(m.value.limits.min, m.value.limits.max), m.value.step, perCore));
  }

  method FractionsToV3(fs: Slice<int>) returns (out: seq<string>)
    ensures |out| == |Elems(fs)| && forall j :: 0 <= j < |out| ==> out[j] == PrintPercent(Elems(fs)[j])
  {
    out := [];
    for j := 0 to |Elems(fs)|
      invariant |out| == j && forall k :: 0 <= k < j ==> out[k] == PrintPercent(Elems(fs)[k])
    {
      out := out + [PrintPercent(Elems(fs)[j])];
    }
  }

  method DefaultToV3(d: Ptr<IntOrString>) returns (r: Ptr<string>, ok: bool)
    ensures ok <==> DefaultOkV2(d)
    ensures ok ==> SameDefault(d, r)
  {
    if d.Null? {
      return Null, true;
    }
    match d.value
    case IntVal(n) =>
      if n < 1 || n > 100 {
        return Null, false;
      }
      return Ref(PrintPercent(n)), true;
    case StrVal(s) =>
      if s != AUTO {
        return Null, false;
      }
      return Ref(AUTO), true;
    case OddType =>
      return Null, false;
  }

  method PolicyToV3(p: PolicyV2, i: nat) returns (r: Result<PolicyV3>)
    ensures r.Ok? <==> DefaultOkV2(p.defaultFraction)
    ensures r.Ok? ==> SamePolicy(p, r.value) && NormalList(r.value.coreFractions)
    ensures r.Err? ==> r == Err(i, AtDefault)
  {
    var memory := MemoryToV3(p.memory);
    var cores := if p.cores.Null? then Null
                 else Ref(CoresV3(p.cores.value.min, p.cores.value.max, p.cores.value.step));
    var fractions := FractionsToV3(p.coreFractions);
    var default, ok := DefaultToV3(p.defaultFraction);
    if !ok {
      return Err(i, AtDefault);
    }
    return Ok(PolicyV3(memory, FromElems(fractions), default, p.dedicatedCores, cores));
  }

  /** Conversion to v1alpha3 checks the defaults only: any number is printed as a fraction. */
  method ConvertSpecV2ToV3(v: SpecV2) returns (r: Result<SpecV3>)
    ensures r.Ok? <==> forall i :: 0 <= i < |Elems(v.policies)| ==> DefaultOkV2(Elems(v.policies)[i].defaultFraction)
    ensures r.Ok? ==> Same(v, r.value) && NormalV3(r.value)
    ensures r.Err? ==>
              && r.policy < |Elems(v.policies)| && r.at == AtDefault
              && !DefaultOkV2(Elems(v.policies)[r.policy].defaultFraction)
              && forall i :: 0 <= i < r.policy ==> DefaultOkV2(Elems(v.policies)[i].defaultFraction)
  {
    var policies: seq<PolicyV3> := [];
    for i := 0 to |Elems(v.policies)|
      invariant |policies| == i
      invariant forall k :: 0 <= k < i ==>
                  && DefaultOkV2(Elems(v.policies)[k].defaultFraction)
                  && SamePolicy(Elems(v.policies)[k], policies[k]) && NormalList(policies[k].coreFractions)
    {
      var p := PolicyToV3(Elems(v.policies)[i], i);
      if p.Err? {
        return Err(p.policy, p.at);
      }
      policies := policies + [p.value];
    }
    return Ok(SpecV3(v.placement, FromElems(policies)));
  }

  // ---------------------------------------------------------------- round trips

  function NormalizedV3(v: SpecV3): SpecV3 {
    var ps := Elems(v.policies);
    v.(policies := FromElems(seq(|ps|, i requires 0 <= i < |ps| =>
                                 ps[i].(coreFractions := FromElems(Elems(ps[i].coreFractions))))))
  }

  function NormalizedV2(v: SpecV2): SpecV2 {
    var ps := Elems(v.policies);
    v.(policies := FromElems(seq(|ps|, i requires 0 <= i < |ps| =>
                                 ps[i].(coreFractions := FromElems(Elems(ps[i].coreFractions))))))
  }

  lemma NormalIsElems<T>(s: Slice<T>)
    requires NormalList(s)
    ensures s == FromElems(Elems(s))
  {
  }

  /** One v1alpha2 policy leaves no choice in v1alpha3, up to nil lists. */
  lemma SameV3(p: PolicyV2, a: PolicyV3, b: PolicyV3)
    requires SamePolicy(p, a) && SamePolicy(p, b) && NormalList(a.coreFractions)
    ensures a == b.(coreFractions := FromElems(Elems(b.coreFractions)))
  {
    assert Elems(a.coreFractions) == Elems(b.coreFractions);
    NormalIsElems(a.coreFractions);
  }

  lemma PrintPercentIsInjective(m: int, n: int)
    requires PrintPercent(m) == PrintPercent(n)
    ensures m == n
  {
    var s := PrintPercent(m);
    var body := s[..|s| - 1];
    if m >= 0 {
      DecimalIsDigits(m);
      assert body == Decimal(m) && Digit(body[0]);
    } else {
      DecimalIsDigits(-m);
      assert body == "-" + Decimal(-m) && body[1..] == Decimal(-m);
    }
    if n >= 0 {
      DecimalIsDigits(n);
      assert body == Decimal(n) && Digit(body[0]);
    } else {
      DecimalIsDigits(-n);
      assert body == "-" + Decimal(-n) && body[1..] == Decimal(-n);
    }
  }

  /** And one v1alpha3 policy leaves no choice in v1alpha2. */
  lemma SameV2(p: PolicyV3, a: PolicyV2, b: PolicyV2)
    requires SamePolicy(a, p) && SamePolicy(b, p) && NormalList(a.coreFractions)
    ensures a == b.(coreFractions := FromElems(Elems(b.coreFractions)))
  {
    var fa, fb := Elems(a.coreFractions), Elems(b.coreFractions);
    forall j | 0 <= j < |fa|
      ensures fa[j] == fb[j]
    {
      PrintPercentIsInjective(fa[j], fb[j]);
    }
    assert fa == fb;
    NormalIsElems(a.coreFractions);
    if a.defaultFraction.Ref? {
      SameDefaultV2(a.defaultFraction, b.defaultFraction, p.defaultFraction);
    }
  }

  lemma SameDefaultV2(a: Ptr<IntOrString>, b: Ptr<IntOrString>, d: Ptr<string>)
    requires SameDefault(a, d) && SameDefault(b, d)
    ensures a == b
  {
    if a.Ref? {
      if a.value.IntVal? {
        PrintsPercentExactlyWhen(a.value.n);
        if b.value.IntVal? {
          PrintPercentIsInjective(a.value.n, b.value.n);
        }
      } else if b.value.IntVal? {
        PrintsPercentExactlyWhen(b.value.n);
      }
    }
  }

  /** What the v1alpha3 schema asks of the fractions of a policy. */
  predicate SchemaValid(p: PolicyV3) {
    && (forall j :: 0 <= j < |Elems(p.coreFractions)| ==> SchemaPercent(Elems(p.coreFractions)[j]))
    && (p.defaultFraction.Ref? ==> p.defaultFraction.value == "Auto" || SchemaPercent(p.defaultFraction.value))
  }

  /** What the way through v1alpha3 asks of a v1alpha2 policy. */
  predicate SurvivesV3(p: PolicyV2) {
    && DefaultOkV2(p.defaultFraction)
    && forall j :: 0 <= j < |Elems(p.coreFractions)| ==> 1 <= Elems(p.coreFractions)[j] <= 100
  }

  /** v1alpha3 to v1alpha2 and back: never fails where the schema holds, and changes nothing. */
  method ThereAndBack(v: SpecV3) returns (r: Result<SpecV3>)
    requires forall i :: 0 <= i < |Elems(v.policies)| ==> SchemaValid(Elems(v.policies)[i])
    ensures r == Ok(NormalizedV3(v))
  {
    forall s: string
      ensures SchemaPercent(s) <==> IsPercent(s)
    {
      SchemaIsWhatIsChecked(s);
    }
    var v2 := ConvertSpecV3ToV2(v);
    r := ConvertSpecV2ToV3(v2.value);
    var ps := Elems(v.policies);
    forall i | 0 <= i < |ps|
      ensures Elems(r.value.policies)[i] == ps[i].(coreFractions := FromElems(Elems(ps[i].coreFractions)))
    {
      SameV3(Elems(v2.value.policies)[i], Elems(r.value.policies)[i], ps[i]);
    }
    assert Elems(r.value.policies) == Elems(NormalizedV3(v).policies);
    NormalIsElems(r.value.policies);
  }

  /**
    v1alpha2 to v1alpha3 and back: fails exactly if a default is not allowed or a fraction
    is not a percentage, and changes nothing otherwise.
  */
  method BackAndThere(v: SpecV2) returns (r: Result<SpecV2>)
    ensures r.Ok? <==> forall i :: 0 <= i < |Elems(v.policies)| ==> SurvivesV3(Elems(v.policies)[i])
    ensures r.Ok? ==> r.value == NormalizedV2(v)
  {
    var v3 := ConvertSpecV2ToV3(v);
    if v3.Err? {
      return Err(v3.policy, v3.at);
    }
    forall n: int
      ensures IsPercent(PrintPercent(n)) <==> 1 <= n <= 100
    {
      PrintsPercentExactlyWhen(n);
    }
    r := ConvertSpecV3ToV2(v3.value);
    if r.Ok? {
      var ps := Elems(v.policies);
      forall i | 0 <= i < |ps|
        ensures Elems(r.value.policies)[i] == ps[i].(coreFractions := FromElems(Elems(ps[i].coreFractions)))
      {
        SameV2(Elems(v3.value.policies)[i], Elems(r.value.policies)[i], ps[i]);
      }
      assert Elems(r.value.policies) == Elems(NormalizedV2(v).policies);
      NormalIsElems(r.value.policies);
    }
  }
}
