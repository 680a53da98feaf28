/** Disk sizes, GiB allocation and the storage preflight of a Proxmox build, in the source's
    64-bit arithmetic. */
module StoragePreflight {
  import opened Text
  import opened Decimal

  const GIB: int := 1024 * 1024 * 1024
  const EFI_2M: int := 2 * 1024 * 1024
  const EFI_4M: int := 4 * 1024 * 1024
  const CLOUD_INIT_DISK: int := 4 * 1024 * 1024

  /** Two's-complement wrap-around of int64 addition. */
  function Wrap64(n: int): (r: int)
    ensures -MAX_INT64 - 1 <= r <= MAX_INT64
    ensures -MAX_INT64 - 1 <= n <= MAX_INT64 ==> r == n
  {
    (n + MAX_INT64 + 1) % (2 * (MAX_INT64 + 1)) - MAX_INT64 - 1
  }

  // ---------------------------------------------------------------- sizes

  function LeadingDigits(s: string): (n: nat)
    ensures n <= |s| && AllDigits(s[..n])
    ensures n < |s| ==> !IsDigit(s[n])
  {
    if s == "" || !IsDigit(s[0]) then 0 else 1 + LeadingDigits(s[1..])
  }

  predicate UnitSyntax(unit: string) {
    var k := if unit != "" && unit[0] in "kmgt" then 1 else 0;
    unit[k..] == "" || unit[k..] == "i" || unit[k..] == "b" || unit[k..] == "ib"
  }

  function TrimSuffix(s: string, suffix: string): string {
    if |suffix| <= |s| && s[|s| - |suffix|..] == suffix then s[..|s| - |suffix|] else s
  }

  function Multiplier(unit: string): (r: Option<nat>)
    ensures r.Some? ==> r.value > 0
  {
    if unit == "" then Some(1)
    else if unit == "k" then Some(1024)
    else if unit == "m" then Some(1024 * 1024)
    else if unit == "g" then Some(1024 * 1024 * 1024)
    else if unit == "t" then Some(1024 * 1024 * 1024 * 1024)
    else None
  }

  /** The pattern ([0-9]+)([kmgt]?i?b?) on a trimmed text, letters in either case. */
  function ParseDiskSize(text: string): Option<int> {
    var size := TrimSpace(text);
    var n := LeadingDigits(size);
    var unit := Lower(size[n..]);
    if n == 0 || !UnitSyntax(unit) then None
    else
      var value := ParseInt64(size[..n]);
      if value.None? then None
      else
        match Multiplier(TrimSuffix(TrimSuffix(unit, "ib"), "b"))
        case None => None
        case Some(mult) => if value.value > MAX_INT64 / mult then None else Some(value.value * mult)
  }

  function AllocationGiB(size: string): Option<int> {
    match ParseDiskSize(size)
    case None => None
    case Some(bytes) =>
      if bytes <= 0 then None
      else
        var gib := bytes / GIB + if bytes % GIB != 0 then 1 else 0;
        Some(if gib < 1 then 1 else gib)
  }

  function AllocationBytes(size: string): Option<int> {
    match AllocationGiB(size)
    case None => None
    case Some(gib) => if gib > MAX_INT64 / GIB then None else Some(gib * GIB)
  }

  // ---------------------------------------------------------------- what sizes mean

  function Power1024(n: nat): nat {
    if n == 0 then 1 else 1024 * Power1024(n - 1)
  }

  /** The bytes of a unit in lower case: an optional scale letter, then nothing, b or ib. */
  function UnitBytes(unit: string): Option<nat> {
    var k := if unit != "" && unit[0] in "kmgt" then 1 else 0;
    if unit[k..] in ["", "b", "ib"] then Some(Power1024(if k == 0 then 0 else 1 + FirstIndex("kmgt", unit[..1]))) else None
  }

  lemma Powers()
    ensures Power1024(0) == 1 && Power1024(1) == 1024 && Power1024(2) == 1024 * 1024
    ensures Power1024(3) == 1024 * 1024 * 1024 && Power1024(4) == 1024 * 1024 * 1024 * 1024
  {
    assert Power1024(2) == 1024 * Power1024(1);
    assert Power1024(3) == 1024 * Power1024(2);
    assert Power1024(4) == 1024 * Power1024(3);
  }

  lemma ScaleLetter(scale: string)
    requires scale == "" || (|scale| == 1 && scale[0] in "kmgt")
    ensures Multiplier(scale) == Some(Power1024(if scale == "" then 0 else 1 + FirstIndex("kmgt", scale)))
  {
    if scale != "" {
      var n := FirstIndex("kmgt", scale);
      assert scale == [scale[0]];
      assert "kmgt"[0] == 'k' && "kmgt"[1] == 'm' && "kmgt"[2] == 'g' && "kmgt"[3] == 't';
      assert forall k: nat :: k < 4 ==> (OccursAt("kmgt", scale, k) <==> "kmgt"[k] == scale[0]);
      Powers();
    }
  }

  /** text reads as `value` times the bytes of its unit. */
  ghost predicate Denotes(text: string, digits: string, unit: string) {
    && TrimSpace(text) == digits + unit
    && digits != "" && AllDigits(digits)
    && (unit == "" || !IsDigit(unit[0]))
  }

  lemma TrimmedSuffix(s: string, suffix: string)
    ensures TrimSuffix(s + suffix, suffix) == s
  {
    assert (s + suffix)[..|s|] == s && (s + suffix)[|s|..] == suffix;
  }

  lemma Untrimmed(s: string, suffix: string)
    requires suffix != "" && (s == "" || s[|s| - 1] != suffix[|suffix| - 1])
    ensures TrimSuffix(s, suffix) == s
  {
    assert |suffix| <= |s| ==> s[|s| - |suffix|..][|suffix| - 1] == s[|s| - 1];
  }

  lemma NoLoneI(scale: string)
    ensures Multiplier(scale + "i") == None
  {
    assert (scale + "i")[|scale|] == 'i';
  }

  lemma NotIB(scale: string)
    requires scale == "" || (|scale| == 1 && scale[0] in "kmgt")
    ensures TrimSuffix(scale + "b", "ib") == scale + "b"
  {
    var s := scale + "b";
    if scale != "" {
      assert 'i' !in "kmgt";
      assert s[|s| - 2..][0] == s[0] == scale[0] != 'i' == "ib"[0];
    }
  }

  /** Trimming IB and then B leaves the scale letter of a unit. */
  lemma TrimmedUnit(scale: string, rest: string)
    requires scale == "" || (|scale| == 1 && scale[0] in "kmgt")
    requires rest in ["", "i", "b", "ib"]
    ensures TrimSuffix(TrimSuffix(scale + rest, "ib"), "b") == if rest == "i" then scale + rest else scale
  {
    hide TrimSuffix;
    Untrimmed(scale, "b");
    if rest == "ib" {
      TrimmedSuffix(scale, "ib");
    } else if rest == "b" {
      assert |scale + rest| >= 2 ==> (scale + rest)[|scale + rest| - 2] == scale[0];
      NotIB(scale);
      TrimmedSuffix(scale, "b");
    } else {
      assert scale + "" == scale;
      Untrimmed(scale + rest, "ib");
      Untrimmed(scale + rest, "b");
    }
  }

  lemma UnitTable(unit: string)
    ensures UnitBytes(unit) == if UnitSyntax(unit) then Multiplier(TrimSuffix(TrimSuffix(unit, "ib"), "b"))
                               else None
  {
    hide Multiplier, TrimSuffix, Power1024, FirstIndex;
    var k := if unit != "" && unit[0] in "kmgt" then 1 else 0;
    var scale, rest := unit[..k], unit[k..];
    assert unit == scale + rest;
    ScaleLetter(scale);
    assert k == 1 ==> scale == unit[..1];
    if UnitSyntax(unit) {
      TrimmedUnit(scale, rest);
      NoLoneI(scale);
    }
  }

  lemma {:induction false} LeadingDigitsIs(digits: string, unit: string)
    requires AllDigits(digits) && (unit == "" || !IsDigit(unit[0]))
    ensures LeadingDigits(digits + unit) == |digits|
  {
    var s := digits + unit;
    if digits == "" {
      assert s == unit;
    } else {
      LeadingDigitsIs(digits[1..], unit);
      assert s[1..] == digits[1..] + unit;
    }
  }

  lemma MulMono(a: int, b: int, m: nat)
    requires a <= b
    ensures a * m <= b * m
  {
    assert (b - a) * m >= 0;
  }

  lemma QuotientBound(value: nat, mult: nat)
    requires mult > 0
    ensures value > MAX_INT64 / mult <==> value * mult > MAX_INT64
    ensures value * mult >= value
  {
    var q, r := MAX_INT64 / mult, MAX_INT64 % mult;
    assert MAX_INT64 == mult * q + r;
    if value > q {
      MulMono(q + 1, value, mult);
      assert (q + 1) * mult == mult * q + mult;
    } else {
      MulMono(value, q, mult);
    }
    MulMono(1, mult, value);
  }

  /** A size is its number times its unit, and is refused exactly when the unit is not in the
      table or the product does not fit 64 bits. */
  lemma ParseDiskSizeExact(text: string, digits: string, unit: string)
    requires Denotes(text, digits, unit)
    ensures var bytes := UnitBytes(Lower(unit));
            ParseDiskSize(text) ==
              if bytes.Some? && DigitsValue(digits) * bytes.value <= MAX_INT64
              then Some(DigitsValue(digits) * bytes.value) else None
  {
    hide TrimSpace, TrimSuffix, UnitSyntax, UnitBytes, Multiplier, LeadingDigits, DigitsValue;
    var size := TrimSpace(text);
    LeadingDigitsIs(digits, unit);
    assert size[..|digits|] == digits && size[|digits|..] == unit;
    UnitTable(Lower(unit));
    assert digits[0] != '-' && digits[0] != '+';
    var bytes := UnitBytes(Lower(unit));
    if bytes.Some? {
      QuotientBound(DigitsValue(digits), bytes.value);
    }
  }

  /** Only texts of that shape are sizes. */
  lemma OnlySizesParse(text: string)
    requires ParseDiskSize(text).Some?
    ensures exists digits, unit :: Denotes(text, digits, unit)
    ensures 0 <= ParseDiskSize(text).value <= MAX_INT64
  {
    hide TrimSpace, LeadingDigits, ParseInt64, UnitSyntax, Multiplier, TrimSuffix, DigitsValue, Lower;
    var size := TrimSpace(text);
    var n := LeadingDigits(size);
    var digits, unit := size[..n], size[n..];
    assert Denotes(text, digits, unit) by {
      assert size == digits + unit;
    }
    ParseDiskSizeExact(text, digits, unit);
  }

  lemma CeilIsLeast(bytes: int, gib: int)
    requires bytes > 0 && gib == bytes / GIB + if bytes % GIB != 0 then 1 else 0
    ensures gib >= 1 && gib * GIB >= bytes
    ensures forall g: nat :: g * GIB >= bytes ==> g >= gib
    ensures gib > MAX_INT64 / GIB <==> gib * GIB > MAX_INT64
  {
  }

  /** The allocation is the least whole number of GiB that holds the disk; it is refused exactly
      when the size is, is zero, or when that many bytes do not fit 64 bits. */
  lemma AllocationIsLeast(size: string)
    ensures AllocationGiB(size).Some? <==> ParseDiskSize(size).Some? && ParseDiskSize(size).value > 0
    ensures AllocationGiB(size).Some? ==>
              var bytes, gib := ParseDiskSize(size).value, AllocationGiB(size).value;
              && gib >= 1 && gib * GIB >= bytes
              && (forall g: nat :: g * GIB >= bytes ==> g >= gib)
              && (AllocationBytes(size) == if gib * GIB <= MAX_INT64 then Some(gib * GIB) else None)
  {
    hide ParseDiskSize;
    var parsed := ParseDiskSize(size);
    if parsed.Some? && parsed.value > 0 {
      CeilIsLeast(parsed.value, AllocationGiB(size).value);
    }
  }

  // ---------------------------------------------------------------- storage status

  datatype Json = Null | Bool(b: bool) | Number(n: real) | Str(s: string) | Other

  datatype StorageStatus = StorageStatus(active: Json, enabled: Json, content: string, avail: Option<int>)

  predicate IsJSONFalse(value: Json) {
    match value
    case Bool(b) => !b
    case Number(n) => n == 0.0
    case Str(s) => s == "0" || Lower(s) == "false"
    case _ => false
  }

  predicate ContentAllows(content: string, want: string) {
    exists k :: 0 <= k < |Split(content, ',')| && TrimSpace(Split(content, ',')[k]) == want
  }

  datatype Requirement = Requirement(roles: seq<string>, contentTypes: seq<string>, requiredBytes: int)

  /** validateStorageStatus: true is a nil error. */
  predicate Accepts(req: Requirement, status: StorageStatus) {
    && !IsJSONFalse(status.active)
    && !IsJSONFalse(status.enabled)
    && TrimSpace(status.content) != ""
    && (forall k :: 0 <= k < |req.contentTypes| ==> ContentAllows(status.content, req.contentTypes[k]))
    && status.avail.Some?
    && status.avail.value >= req.requiredBytes
  }

  /** A JSON value that switches a storage off. */
  predicate SaysFalse(value: Json) {
    value in {Bool(false), Number(0.0), Str("0")}
    || (value.Str? && |value.s| == 5 && forall k :: 0 <= k < 5 ==> LowerChar(value.s[k]) == "false"[k])
  }

  /** A list written with commas allows exactly its parts, without the space around them. */
  lemma ListAllows(parts: seq<string>, want: string)
    requires parts != [] && forall k :: 0 <= k < |parts| ==> ',' !in parts[k]
    ensures ContentAllows(Join(parts, ','), want) <==> exists k :: 0 <= k < |parts| && TrimSpace(parts[k]) == want
  {
    SplitOfJoin(parts, ',');
  }

  lemma FalseIff(value: Json)
    ensures IsJSONFalse(value) <==> SaysFalse(value)
  {
    if value.Str? {
      assert Lower(value.s) == "false" <==> |value.s| == 5 && forall k :: 0 <= k < 5 ==> Lower(value.s)[k] == "false"[k];
    }
  }

  /** A storage is accepted exactly when it is switched off by neither flag, lists some content, allows
      every content type that is asked for, and reports enough free space. */
  lemma AcceptedIff(req: Requirement, status: StorageStatus)
    ensures Accepts(req, status) <==>
              && !SaysFalse(status.active) && !SaysFalse(status.enabled)
              && HasText(status.content)
              && (forall want <- req.contentTypes :: ContentAllows(status.content, want))
              && status.avail.Some? && req.requiredBytes <= status.avail.value
  {
    hide ContentAllows, TrimSpace, IsJSONFalse, SaysFalse, HasText;
    FalseIff(status.active);
    FalseIff(status.enabled);
    TrimSpaceIsBlank(status.content);
    if forall k :: 0 <= k < |req.contentTypes| ==> ContentAllows(status.content, req.contentTypes[k]) {
      forall want <- req.contentTypes
        ensures ContentAllows(status.content, want)
      {
        var k :| 0 <= k < |req.contentTypes| && req.contentTypes[k] == want;
      }
    }
  }

  // ---------------------------------------------------------------- collecting requirements

  /** One thing the build will put on a storage. */
  datatype Demand = Demand(storage: string, role: string, content: string, bytes: int)

  function With(reqs: map<string, Requirement>, d: Demand): map<string, Requirement> {
    var req := if d.storage in reqs then reqs[d.storage] else Requirement([], [], 0);
    reqs[d.storage := Requirement(
      req.roles + [d.role], req.contentTypes + [d.content], Wrap64(req.requiredBytes + d.bytes))]
  }

  class Preflight {
    var requirements: map<string, Requirement>

    constructor ()
      ensures requirements == map[]
    {
      requirements := map[];
    }

    method AddStorageRequirement(d: Demand)
      modifies this
      ensures requirements == With(old(requirements), d)
    {
      var req := if d.storage in requirements then requirements[d.storage] else Requirement([], [], 0);
      requirements := requirements[d.storage := Requirement(
        req.roles + [d.role],
        req.contentTypes + [d.content],
        Wrap64(req.requiredBytes + d.bytes))];
    }
  }

  function Collected(demands: seq<Demand>): map<string, Requirement> {
    if demands == [] then map[]
    else With(Collected(demands[..|demands| - 1]), demands[|demands| - 1])
  }

  /** The bytes that the demands really put on one storage. */
  function TrueTotal(demands: seq<Demand>, storage: string): int {
    if demands == [] then 0
    else
      var last := demands[|demands| - 1];
      TrueTotal(demands[..|demands| - 1], storage) + if last.storage == storage then last.bytes else 0
  }

  lemma WrapAdd(a: int, b: int)
    ensures Wrap64(Wrap64(a) + b) == Wrap64(a + b)
  {
  }

  /** The storages of the requirements are those of the demands. */
  lemma {:induction false} CollectedStorages(demands: seq<Demand>, storage: string)
    ensures storage in Collected(demands) <==> exists k :: 0 <= k < |demands| && demands[k].storage == storage
  {
    if demands != [] {
      CollectedStorages(demands[..|demands| - 1], storage);
    }
  }

  /** A storage's requirement asks for the wrapped total of its demands. */
  lemma {:induction false} CollectedTotal(demands: seq<Demand>, storage: string)
    ensures storage !in Collected(demands) ==> TrueTotal(demands, storage) == 0
    ensures storage in Collected(demands) ==>
              Collected(demands)[storage].requiredBytes == Wrap64(TrueTotal(demands, storage))
  {
    if demands != [] {
      var before, last := demands[..|demands| - 1], demands[|demands| - 1];
      CollectedTotal(before, storage);
      WrapAdd(TrueTotal(before, storage), last.bytes);
    }
  }

  /** A storage's requirement names exactly the content types of its demands. */
  lemma {:induction false} CollectedContent(demands: seq<Demand>, storage: string, content: string)
    requires storage in Collected(demands)
    ensures content in Collected(demands)[storage].contentTypes
       <==> exists k :: 0 <= k < |demands| && demands[k].storage == storage && demands[k].content == content
  {
    var before, last := demands[..|demands| - 1], demands[|demands| - 1];
    if storage in Collected(before) {
      CollectedContent(before, storage, content);
    } else {
      CollectedStorages(before, storage);
    }
    assert forall k :: 0 <= k < |before| ==> before[k] == demands[k];
  }

  // ---------------------------------------------------------------- the preflight

  datatype Plan = Plan(
    isoStorage: string,
    diskStorage: string,
    isoBytes: int,
    diskSize: string,
    uefi: bool,
    efi2m: bool,
    cloudInit: bool)

  function EFIDiskBytes(plan: Plan): int {
    if !plan.uefi then 0 else if plan.efi2m then EFI_2M else EFI_4M
  }

  /** What the build puts where; the EFI disk is added to the disk before it is recorded. */
  function Demands(plan: Plan, allocation: int): seq<Demand> {
    [Demand(plan.isoStorage, "ISO", "iso", plan.isoBytes),
     Demand(plan.diskStorage, "disk", "images", Wrap64(allocation + EFIDiskBytes(plan)))]
    + if plan.cloudInit then [Demand(plan.diskStorage, "cloud-init", "images", CLOUD_INIT_DISK)] else []
  }

  /** The same with nothing wrapped. */
  function TrueDemands(plan: Plan, allocation: int): seq<Demand> {
    [Demand(plan.isoStorage, "ISO", "iso", plan.isoBytes),
     Demand(plan.diskStorage, "disk", "images", allocation + EFIDiskBytes(plan))]
    + if plan.cloudInit then [Demand(plan.diskStorage, "cloud-init", "images", CLOUD_INIT_DISK)] else []
  }

  function RequirementsOf(plan: Plan): Option<map<string, Requirement>> {
    match AllocationBytes(plan.diskSize)
    case None => None
    case Some(allocation) => Some(Collected(Demands(plan, allocation)))
  }

  method CheckStorages(requirements: map<string, Requirement>, order: seq<string>,
                       statuses: map<string, StorageStatus>)
    returns (ok: bool)
    requires forall s :: s in order <==> s in requirements
    ensures ok <==> forall s :: s in requirements ==> s in statuses && Accepts(requirements[s], statuses[s])
  {
    hide Accepts;
    for k := 0 to |order|
      invariant forall i :: 0 <= i < k ==>
                  order[i] in statuses && Accepts(requirements[order[i]], statuses[order[i]])
    {
      var s := order[k];
      if s !in statuses || !Accepts(requirements[s], statuses[s]) {
        return false;
      }
    }
    return true;
  }

  lemma CollectedSnoc(demands: seq<Demand>, d: Demand)
    ensures Collected(demands + [d]) == With(Collected(demands), d)
  {
    assert (demands + [d])[..|demands|] == demands;
  }

  /** The three recording steps of the preflight collect the plan's demands. */
  lemma CollectedIs(plan: Plan, allocation: int)
    ensures var demands := Demands(plan, allocation);
            var two := With(With(map[], demands[0]), demands[1]);
            Collected(demands) == if plan.cloudInit then With(two, demands[2]) else two
  {
    var demands := Demands(plan, allocation);
    CollectedSnoc([], demands[0]);
    CollectedSnoc([demands[0]], demands[1]);
    assert [] + [demands[0]] == [demands[0]];
    assert [demands[0]] + [demands[1]] == [demands[0], demands[1]];
    if plan.cloudInit {
      CollectedSnoc([demands[0], demands[1]], demands[2]);
      assert demands == [demands[0], demands[1]] + [demands[2]];
    } else {
      assert demands == [demands[0], demands[1]];
    }
  }

  /** The loop over the storages; the order decides only which failure is reported. */
  method PreflightBuildStorages(plan: Plan, order: seq<string>, statuses: map<string, StorageStatus>)
    returns (ok: bool)
    requires RequirementsOf(plan).Some? ==> forall s :: s in order <==> s in RequirementsOf(plan).value
    ensures ok <==> RequirementsOf(plan).Some? &&
                    forall s :: s in RequirementsOf(plan).value ==>
                      s in statuses && Accepts(RequirementsOf(plan).value[s], statuses[s])
  {
    hide AllocationBytes, Collected, With, EFIDiskBytes;
    var allocation := AllocationBytes(plan.diskSize);
    if allocation.None? {
      return false;
    }
    var diskBytes := Wrap64(allocation.value + EFIDiskBytes(plan));
    var preflight := new Preflight();
    preflight.AddStorageRequirement(Demand(plan.isoStorage, "ISO", "iso", plan.isoBytes));
    preflight.AddStorageRequirement(Demand(plan.diskStorage, "disk", "images", diskBytes));
    if plan.cloudInit {
      preflight.AddStorageRequirement(Demand(plan.diskStorage, "cloud-init", "images", CLOUD_INIT_DISK));
    }
    CollectedIs(plan, allocation.value);
    ok := CheckStorages(preflight.requirements, order, statuses);
  }

  lemma TotalSnoc(demands: seq<Demand>, d: Demand, storage: string)
    ensures TrueTotal(demands + [d], storage)
         == TrueTotal(demands, storage) + if d.storage == storage then d.bytes else 0
  {
    assert (demands + [d])[..|demands|] == demands;
  }

  lemma TotalOfPlan(demands: seq<Demand>, storage: string)
    requires |demands| == 2 || |demands| == 3
    ensures TrueTotal(demands, storage) ==
              (if demands[0].storage == storage then demands[0].bytes else 0)
              + (if demands[1].storage == storage then demands[1].bytes else 0)
              + (if |demands| == 3 && demands[2].storage == storage then demands[2].bytes else 0)
  {
    TotalSnoc([], demands[0], storage);
    TotalSnoc([demands[0]], demands[1], storage);
    assert [] + [demands[0]] == [demands[0]];
    assert [demands[0]] + [demands[1]] == [demands[0], demands[1]];
    if |demands| == 3 {
      TotalSnoc([demands[0], demands[1]], demands[2], storage);
      assert demands == [demands[0], demands[1]] + [demands[2]];
    } else {
      assert demands == [demands[0], demands[1]];
    }
  }

  /** What a build puts on a storage, in bytes. */
  lemma TotalOfStorage(plan: Plan, allocation: int, storage: string)
    ensures TrueTotal(TrueDemands(plan, allocation), storage) ==
              (if storage == plan.isoStorage then plan.isoBytes else 0)
              + (if storage == plan.diskStorage then allocation else 0)
              + (if storage == plan.diskStorage && plan.uefi then if plan.efi2m then 2097152 else 4194304 else 0)
              + (if storage == plan.diskStorage && plan.cloudInit then 4194304 else 0)
  {
    TotalOfPlan(TrueDemands(plan, allocation), storage);
  }

  /** Wrapping the disk's own sum early does not change a storage's requirement. */
  lemma RequirementIsWrappedTotal(plan: Plan, allocation: int, storage: string)
    requires storage in Collected(Demands(plan, allocation))
    ensures Collected(Demands(plan, allocation))[storage].requiredBytes
         == Wrap64(TrueTotal(TrueDemands(plan, allocation), storage))
  {
    var demands, unwrapped := Demands(plan, allocation), TrueDemands(plan, allocation);
    CollectedTotal(demands, storage);
    TotalOfPlan(demands, storage);
    TotalOfPlan(unwrapped, storage);
    var disk := allocation + EFIDiskBytes(plan);
    WrapAdd(disk, TrueTotal(unwrapped, storage) - disk);
  }

  lemma PlanStorages(plan: Plan, allocation: int, storage: string)
    ensures storage in Collected(Demands(plan, allocation))
       <==> storage == plan.isoStorage || storage == plan.diskStorage
  {
    var demands := Demands(plan, allocation);
    CollectedStorages(demands, storage);
    assert demands[0].storage == plan.isoStorage && demands[1].storage == plan.diskStorage;
  }

  lemma AllocationIsPositive(size: string)
    requires AllocationBytes(size).Some?
    ensures 0 < AllocationBytes(size).value <= MAX_INT64
    ensures AllocationBytes(size).value % GIB == 0
    ensures ParseDiskSize(size).Some? && ParseDiskSize(size).value <= AllocationBytes(size).value
    ensures AllocationBytes(size).value < ParseDiskSize(size).value + GIB
  {
    hide ParseDiskSize;
    AllocationIsLeast(size);
  }

  /** A storage that the preflight accepts really fits all that the build puts on it exactly as
      long as the storage's total fits 64 bits; past that point the requirement turns negative
      and any reported capacity is enough. */
  lemma AcceptedMeansFits(plan: Plan, allocation: int, storage: string, status: StorageStatus)
    requires AllocationBytes(plan.diskSize) == Some(allocation)
    requires 0 <= plan.isoBytes <= MAX_INT64
    requires storage in RequirementsOf(plan).value
    requires Accepts(RequirementsOf(plan).value[storage], status)
    ensures var total := TrueTotal(TrueDemands(plan, allocation), storage);
            && (total <= MAX_INT64 ==> status.avail.value >= total)
            && (status.avail.value <= MAX_INT64 ==> (status.avail.value >= total <==> total <= MAX_INT64))
  {
    hide AllocationBytes, ParseDiskSize, Collected, TrueTotal;
    RequirementIsWrappedTotal(plan, allocation, storage);
    TotalOfPlan(TrueDemands(plan, allocation), storage);
    AllocationIsPositive(plan.diskSize);
  }

  /** An accepted storage allows every content type the build puts on it. */
  lemma AcceptedMeansAllowed(plan: Plan, allocation: int, storage: string, status: StorageStatus)
    requires AllocationBytes(plan.diskSize) == Some(allocation)
    requires storage in RequirementsOf(plan).value
    requires Accepts(RequirementsOf(plan).value[storage], status)
    ensures storage == plan.isoStorage ==> ContentAllows(status.content, "iso")
    ensures storage == plan.diskStorage ==> ContentAllows(status.content, "images")
  {
    var demands := Demands(plan, allocation);
    CollectedContent(demands, storage, "iso");
    CollectedContent(demands, storage, "images");
    assert demands[0].content == "iso" && demands[1].content == "images";
  }

  /** Disks up to 2^62 bytes with images up to 2^61 bytes stay clear of the wrap-around. */
  lemma UsualSizesFit(plan: Plan, allocation: int, storage: string)
    requires AllocationBytes(plan.diskSize) == Some(allocation)
    requires ParseDiskSize(plan.diskSize).value <= 0x4000_0000_0000_0000
    requires 0 <= plan.isoBytes <= 0x2000_0000_0000_0000
    ensures 0 <= TrueTotal(TrueDemands(plan, allocation), storage) <= MAX_INT64
  {
    AllocationIsPositive(plan.diskSize);
    TotalOfPlan(TrueDemands(plan, allocation), storage);
  }

  /** Nothing but images is asked for. */
  lemma DemandedContent(plan: Plan, allocation: int, storage: string, k: nat)
    requires storage in Collected(Demands(plan, allocation))
    requires k < |Collected(Demands(plan, allocation))[storage].contentTypes|
    ensures Collected(Demands(plan, allocation))[storage].contentTypes[k] in ["iso", "images"]
  {
    var content := Collected(Demands(plan, allocation))[storage].contentTypes[k];
    CollectedContent(Demands(plan, allocation), storage, content);
  }

  const LARGEST_GIB: nat := 0x1_ffff_ffff

  lemma LargestText()
    ensures Denotes(Format(LARGEST_GIB) + "G", Format(LARGEST_GIB), "G")
    ensures UnitBytes(Lower("G")) == Some(GIB)
  {
    hide DigitsValue, Format, TrimSpace;
    var digits := Format(LARGEST_GIB);
    assert IsDigit(digits[0]);
    TrimSpaceTight(digits + "G");
    assert Lower("G") == "g";
    assert "g"[..1] == "g" && "g"[1..] == "";
    ScaleLetter("g");
    assert Multiplier("g") == Some(GIB);
  }

  lemma LargestDisk()
    ensures AllocationBytes(Format(LARGEST_GIB) + "G") == Some(LARGEST_GIB * GIB)
  {
    hide ParseDiskSize, Format, Denotes, DigitsValue, UnitBytes;
    LargestText();
    DigitsOfFormat(LARGEST_GIB);
    ParseDiskSizeExact(Format(LARGEST_GIB) + "G", Format(LARGEST_GIB), "G");
    AllocationIsLeast(Format(LARGEST_GIB) + "G");
  }

  /** A plan past the limit: an 8589934591 GiB disk and a 1 GiB image on one storage are accepted
      by a storage that reports no free space at all. */
  lemma WrappedRequirementAcceptsFullStorage(status: StorageStatus)
    requires !IsJSONFalse(status.active) && !IsJSONFalse(status.enabled)
    requires TrimSpace(status.content) != ""
    requires ContentAllows(status.content, "iso") && ContentAllows(status.content, "images")
    requires status.avail == Some(0)
    ensures var plan := Plan("local", "local", GIB, Format(LARGEST_GIB) + "G", false, false, false);
            && RequirementsOf(plan).Some?
            && forall s :: s in RequirementsOf(plan).value ==> Accepts(RequirementsOf(plan).value[s], status)
  {
    hide AllocationBytes, Collected, TrueTotal, TrimSpace, Format, ContentAllows, Demands, IsJSONFalse;
    var plan := Plan("local", "local", GIB, Format(LARGEST_GIB) + "G", false, false, false);
    var allocation := LARGEST_GIB * GIB;
    LargestDisk();
    var demands := Demands(plan, allocation);
    forall s | s in RequirementsOf(plan).value
      ensures Accepts(RequirementsOf(plan).value[s], status)
    {
      var req := Collected(demands)[s];
      PlanStorages(plan, allocation, s);
      RequirementIsWrappedTotal(plan, allocation, s);
      TotalOfPlan(TrueDemands(plan, allocation), s);
      forall k | 0 <= k < |req.contentTypes|
        ensures ContentAllows(status.content, req.contentTypes[k])
      {
        DemandedContent(plan, allocation, s, k);
      }
    }
  }
}
