/**
Byte accounting of the entry files. Sizes are exact counts; the source adds
them with saturation, which no limit here can tell apart.
*/
module Bounds {
  import opened Base
  import opened HistoryLog
  import opened QueueOrder

  const MAX_QUEUE_ENTRIES: nat := 1024
  const MAX_ENTRY_BYTES: nat := 2 * 1024 * 1024
  const MAX_QUEUE_BYTES: nat := 32 * 1024 * 1024
  const ENTRY_MUTATION_HEADROOM_BYTES: nat := 80
  const MAX_ORDER_BYTES: nat := 20
  const UUID_JSON_BYTES: nat := 38
  const UUID_CHARS: nat := 36

  datatype StoreError =
    | UnknownId(id: string)
    | QueueFull(max: nat)
    | EntryTooLarge(size: nat, limit: nat)
    | QueueByteBudgetExceeded(used: nat, requested: nat, limit: nat)

  /** The fields no operation changes after enqueue. */
  datatype Fixed = Fixed(id: string, flutterSeconds: U64, enqueuedAt: U64, notBefore: U64, request: CommentRequest)

  function FixedOf(e: StoredEntry): Fixed {
    Fixed(e.id, e.flutterSeconds, e.enqueuedAt, e.notBefore, e.request)
  }

  /** Bytes of a pretty-printed entry outside its order, claim and incarnation. */
  type FixedBytes = Fixed -> nat

  function Digits(n: nat): nat {
    if n < 10 then 1 else 1 + Digits(n / 10)
  }

  /** Printed width of an order key, its sign included. */
  function OrderWidth(order: I64): nat {
    var n: int := order;
    if n < 0 then 1 + Digits(-n) else Digits(n)
  }

  function Pow10(k: nat): nat {
    if k == 0 then 1 else 10 * Pow10(k - 1)
  }

  lemma {:induction false} DigitsBound(n: nat, k: nat)
    requires k > 0 && n < Pow10(k)
    ensures 1 <= Digits(n) <= k
  {
    if n >= 10 {
      assert k > 1;
      DigitsBound(n / 10, k - 1);
    }
  }

  lemma OrderWidthBound(order: I64)
    ensures 1 <= OrderWidth(order) <= MAX_ORDER_BYTES
  {
    assert Pow10(5) == 100000;
    assert Pow10(10) == 10000000000;
    assert Pow10(15) == 1000000000000000;
    assert Pow10(19) == 10000000000000000000;
    var n: int := order;
    DigitsBound(if n < 0 then -n else n, 19);
  }

  lemma {:induction false} DigitsExact(n: nat)
    requires n > 0
    ensures Digits(n) > 0 && Pow10(Digits(n) - 1) <= n < Pow10(Digits(n))
  {
    if n >= 10 {
      DigitsExact(n / 10);
    }
  }

  lemma {:induction false} DigitsAtLeast(n: nat, k: nat)
    requires n >= Pow10(k)
    ensures Digits(n) > k
  {
    if k > 0 {
      DigitsAtLeast(n / 10, k - 1);
    }
  }

  /** The width is that of the decimal numeral, with a sign before a negative one. */
  lemma OrderWidthExact(order: I64)
    ensures
      var w, n: int := OrderWidth(order), order;
      && (n == 0 ==> w == 1)
      && (n > 0 ==> w > 0 && Pow10(w - 1) <= n < Pow10(w))
      && (n < 0 ==> w > 1 && Pow10(w - 2) <= -n < Pow10(w - 1))
  {
    var n: int := order;
    if n != 0 {
      DigitsExact(if n < 0 then -n else n);
    }
  }

  /** Serialized claim: `null`, or the quoted token. */
  function ClaimBytes(claim: Option<string>): nat {
    match claim case None => 4 case Some(token) => |token| + 2
  }

  /** Serialized incarnation field: absent when empty. */
  function IncarnationBytes(incarnation: string): nat {
    if incarnation == "" then 0 else 21 + |incarnation|
  }

  function EntryBytes(fixed: FixedBytes, e: StoredEntry): nat {
    fixed(FixedOf(e)) + OrderWidth(e.order) + ClaimBytes(e.claimToken) + IncarnationBytes(e.incarnation)
  }

  function Minus(a: nat, b: nat): nat {
    if a < b then 0 else a - b
  }

  function IncarnationGrowth(e: StoredEntry): nat {
    if e.incarnation == "" then 57 else 0
  }

  function EntryHeadroom(e: StoredEntry): nat {
    var orderGrowth := Minus(OrderWidth(e.order), 1);
    var claimGrowth := match e.claimToken case None => 0 case Some(token) => Minus(|token| + 2, 4);
    Minus(Minus(ENTRY_MUTATION_HEADROOM_BYTES, orderGrowth), claimGrowth) + IncarnationGrowth(e)
  }

  function MaximumMutationGrowth(e: StoredEntry): nat {
    Minus(MAX_ORDER_BYTES, OrderWidth(e.order)) + Minus(UUID_JSON_BYTES, ClaimBytes(e.claimToken)) + IncarnationGrowth(e)
  }

  /** What the store itself writes: claims and incarnations are UUIDs or absent. */
  predicate UuidFields(e: StoredEntry) {
    && (e.claimToken.Some? ==> |e.claimToken.value| == UUID_CHARS)
    && (e.incarnation != "" ==> |e.incarnation| == UUID_CHARS)
  }

  predicate SameFixed(a: StoredEntry, b: StoredEntry) {
    FixedOf(a) == FixedOf(b)
  }

  /**
  Conservation: no rewrite of order, claim or first incarnation changes an
  entry's bytes plus headroom, nor its bytes plus worst-case growth.
  */
  lemma AccountingIsConserved(fixed: FixedBytes, a: StoredEntry, b: StoredEntry)
    requires UuidFields(a) && UuidFields(b) && SameFixed(a, b)
    ensures EntryBytes(fixed, a) + EntryHeadroom(a) == EntryBytes(fixed, b) + EntryHeadroom(b)
    ensures EntryBytes(fixed, a) + MaximumMutationGrowth(a) == EntryBytes(fixed, b) + MaximumMutationGrowth(b)
  {
    OrderWidthBound(a.order);
    OrderWidthBound(b.order);
  }

  /** The worst case is the most that such rewrites can make of an entry, and one of them makes it that. */
  lemma WorstCaseIsReached(fixed: FixedBytes, e: StoredEntry)
    requires UuidFields(e)
    ensures forall b :: UuidFields(b) && SameFixed(e, b) ==> EntryBytes(fixed, b) <= EntryBytes(fixed, e) + MaximumMutationGrowth(e)
    ensures exists b :: && UuidFields(b) && SameFixed(e, b) && (e.incarnation != "" ==> b.incarnation == e.incarnation)
                        && EntryBytes(fixed, b) == EntryBytes(fixed, e) + MaximumMutationGrowth(e)
  {
    OrderWidthBound(e.order);
    forall b | UuidFields(b) && SameFixed(e, b) ensures EntryBytes(fixed, b) <= EntryBytes(fixed, e) + MaximumMutationGrowth(e) {
      OrderWidthBound(b.order);
    }
    var uuid := seq(UUID_CHARS, _ => '0');
    var b := e.(order := I64_MIN, claimToken := Some(uuid), incarnation := if e.incarnation == "" then uuid else e.incarnation);
    OrderWidthBound(b.order);
    assert Pow10(6) == 1000000;
    assert Pow10(12) == 1000000000000;
    assert Pow10(18) == 1000000000000000000;
    DigitsAtLeast(0x8000_0000_0000_0000, 18);
    assert UuidFields(b) && SameFixed(e, b) && EntryBytes(fixed, b) == EntryBytes(fixed, e) + MaximumMutationGrowth(e);
  }

  /** The sum of a measure over the stored entries. */
  ghost function Sum(m: Entries, f: StoredEntry -> nat): nat {
    if m == map[] then 0 else
    var id :| id in m;
    f(m[id]) + Sum(m - {id}, f)
  }

  lemma {:induction false} SumRemove(m: Entries, f: StoredEntry -> nat, id: string)
    requires id in m
    ensures Sum(m, f) == f(m[id]) + Sum(m - {id}, f)
  {
    var first :| first in m && Sum(m, f) == f(m[first]) + Sum(m - {first}, f);
    if first != id {
      SumRemove(m - {first}, f, id);
      SumRemove(m - {id}, f, first);
      assert m - {first} - {id} == m - {id} - {first};
    }
  }

  lemma SumUpdate(m: Entries, f: StoredEntry -> nat, id: string, e: StoredEntry)
    ensures Sum(m[id := e], f) == f(e) + Sum(m - {id}, f)
  {
    SumRemove(m[id := e], f, id);
    assert m[id := e] - {id} == m - {id};
  }

  lemma SumFresh(m: Entries, f: StoredEntry -> nat, e: StoredEntry)
    requires e.id !in m
    ensures Sum(m[e.id := e], f) == Sum(m, f) + f(e)
  {
    SumUpdate(m, f, e.id, e);
    assert m - {e.id} == m;
  }

  lemma {:induction false} SumAdds(m: Entries, f: StoredEntry -> nat, g: StoredEntry -> nat, h: StoredEntry -> nat)
    requires forall e :: h(e) == f(e) + g(e)
    ensures Sum(m, h) == Sum(m, f) + Sum(m, g)
  {
    if m != map[] {
      var id :| id in m;
      SumRemove(m, f, id);
      SumRemove(m, g, id);
      SumRemove(m, h, id);
      SumAdds(m - {id}, f, g, h);
    }
  }

  function SizeOf(fixed: FixedBytes): StoredEntry -> nat {
    e => EntryBytes(fixed, e)
  }

  const HeadroomOf: StoredEntry -> nat := e => EntryHeadroom(e)

  /** A directory listing of the entry files, in whatever order the system returns them. */
  ghost predicate IsListing(dir: seq<StoredEntry>, m: Entries) {
    && (forall i, j :: 0 <= i < j < |dir| ==> dir[i].id != dir[j].id)
    && Lists(dir, m)
  }

  datatype QueueUsage = QueueUsage(count: nat, bytes: nat, headroomBytes: nat)

  datatype UsageResult = UsageOk(usage: QueueUsage) | UsageErr(error: StoreError)

  ghost function UsageOf(fixed: FixedBytes, m: Entries): QueueUsage {
    QueueUsage(|m|, Sum(m, SizeOf(fixed)), Sum(m, HeadroomOf))
  }

  /** The conditions under which the store can be read at all. */
  ghost predicate Readable(fixed: FixedBytes, m: Entries) {
    && |m| <= MAX_QUEUE_ENTRIES
    && Sum(m, SizeOf(fixed)) <= MAX_QUEUE_BYTES
    && forall id :: id in m ==> EntryBytes(fixed, m[id]) + MaximumMutationGrowth(m[id]) <= MAX_ENTRY_BYTES
  }

  /** The running total over the first `n` files of a listing. */
  function SumTo(dir: seq<StoredEntry>, n: nat, f: StoredEntry -> nat): nat
    requires n <= |dir|
  {
    if n == 0 then 0 else SumTo(dir, n - 1, f) + f(dir[n - 1])
  }

  lemma {:induction false} SumToGrows(dir: seq<StoredEntry>, n: nat, k: nat, f: StoredEntry -> nat)
    requires n <= k <= |dir|
    ensures SumTo(dir, n, f) <= SumTo(dir, k, f)
  {
    if n < k {
      SumToGrows(dir, n, k - 1, f);
    }
  }

  lemma {:induction false} SumToPrefix(dir: seq<StoredEntry>, n: nat, k: nat, f: StoredEntry -> nat)
    requires n <= k <= |dir|
    ensures SumTo(dir[..k], n, f) == SumTo(dir, n, f)
  {
    if n > 0 {
      SumToPrefix(dir, n - 1, k, f);
    }
  }

  lemma {:induction false} ListingCount(dir: seq<StoredEntry>, m: Entries)
    requires IsListing(dir, m) && WellKeyed(m)
    ensures |dir| == |m|
  {
    if dir == [] {
      NoEntries(m);
    } else {
      var last := |dir| - 1;
      ListingCount(dir[..last], m - {dir[last].id});
      assert (m - {dir[last].id}).Keys == m.Keys - {dir[last].id};
    }
  }

  /** The total does not depend on the order of the listing. */
  lemma {:induction false} ListingTotals(dir: seq<StoredEntry>, m: Entries, f: StoredEntry -> nat)
    requires IsListing(dir, m) && WellKeyed(m)
    ensures SumTo(dir, |dir|, f) == Sum(m, f)
  {
    if dir == [] {
      NoEntries(m);
    } else {
      var last := |dir| - 1;
      ListingTotals(dir[..last], m - {dir[last].id}, f);
      SumToPrefix(dir, last, last, f);
      SumRemove(m, f, dir[last].id);
    }
  }

  lemma NoEntries(m: Entries)
    requires WellKeyed(m) && Lists([], m)
    ensures m == map[]
  {
    assert forall id :: id in m ==> m[id] in [];
  }

  /** Count the entry files and their bytes, refusing a directory over either limit. */
  method ScanEntryFiles(fixed: FixedBytes, dir: seq<StoredEntry>) returns (r: UsageResult)
    ensures r.UsageOk? <==> |dir| <= MAX_QUEUE_ENTRIES && SumTo(dir, |dir|, SizeOf(fixed)) <= MAX_QUEUE_BYTES
    ensures r.UsageOk? ==> r.usage == QueueUsage(|dir|, SumTo(dir, |dir|, SizeOf(fixed)), 0)
  {
    var i, bytes := 0, 0;
    while i < |dir|
      invariant 0 <= i <= |dir| && i <= MAX_QUEUE_ENTRIES
      invariant bytes == SumTo(dir, i, SizeOf(fixed)) <= MAX_QUEUE_BYTES
    {
      if i == MAX_QUEUE_ENTRIES {
        return UsageErr(QueueFull(MAX_QUEUE_ENTRIES));
      }
      var fileBytes := EntryBytes(fixed, dir[i]);
      SumToGrows(dir, i + 1, |dir|, SizeOf(fixed));
      if bytes + fileBytes > MAX_QUEUE_BYTES {
        return UsageErr(QueueByteBudgetExceeded(bytes, fileBytes, MAX_QUEUE_BYTES));
      }
      bytes := bytes + fileBytes;
      i := i + 1;
    }
    r := UsageOk(QueueUsage(|dir|, bytes, 0));
  }

  /** Add up the reservations of the entries read, refusing one that could outgrow its limit. */
  method AddHeadroom(fixed: FixedBytes, dir: seq<StoredEntry>, usage: QueueUsage) returns (r: UsageResult)
    ensures r.UsageOk? <==> forall k :: 0 <= k < |dir| ==> EntryBytes(fixed, dir[k]) + MaximumMutationGrowth(dir[k]) <= MAX_ENTRY_BYTES
    ensures r.UsageOk? ==> r.usage == usage.(headroomBytes := SumTo(dir, |dir|, HeadroomOf))
  {
    var i, headroom := 0, 0;
    while i < |dir|
      invariant 0 <= i <= |dir|
      invariant headroom == SumTo(dir, i, HeadroomOf)
      invariant forall k :: 0 <= k < i ==> EntryBytes(fixed, dir[k]) + MaximumMutationGrowth(dir[k]) <= MAX_ENTRY_BYTES
    {
      var required := EntryBytes(fixed, dir[i]) + MaximumMutationGrowth(dir[i]);
      if required > MAX_ENTRY_BYTES {
        return UsageErr(EntryTooLarge(required, MAX_ENTRY_BYTES));
      }
      headroom := headroom + EntryHeadroom(dir[i]);
      i := i + 1;
    }
    r := UsageOk(usage.(headroomBytes := headroom));
  }

  /** The usage of the stored entries, whatever order the directory lists them in. */
  method EntriesWithUsage(fixed: FixedBytes, dir: seq<StoredEntry>, ghost m: Entries) returns (r: UsageResult)
    requires WellKeyed(m) && IsListing(dir, m)
    ensures r.UsageOk? <==> Readable(fixed, m)
    ensures r.UsageOk? ==> r.usage == UsageOf(fixed, m)
  {
    ListingCount(dir, m);
    ListingTotals(dir, m, SizeOf(fixed));
    ListingTotals(dir, m, HeadroomOf);
    r := ScanEntryFiles(fixed, dir);
    if r.UsageOk? {
      r := AddHeadroom(fixed, dir, r.usage);
    }
  }

  /** What one entry file occupies and what stays reserved for it. */
  datatype Footprint = Footprint(bytes: nat, headroom: nat)

  function FootprintOf(fixed: FixedBytes, e: StoredEntry): Footprint {
    Footprint(EntryBytes(fixed, e), EntryHeadroom(e))
  }

  /** The limit checks of `write_entry_with_usage`, in order. */
  function WriteRefusal(usage: QueueUsage, previous: Option<Footprint>, next: Footprint): Option<StoreError> {
    var count := usage.count + (if previous.None? then 1 else 0);
    if count > MAX_QUEUE_ENTRIES then Some(QueueFull(MAX_QUEUE_ENTRIES)) else
    var limit := if previous.None? then MAX_ENTRY_BYTES - ENTRY_MUTATION_HEADROOM_BYTES else MAX_ENTRY_BYTES;
    if next.bytes > limit then Some(EntryTooLarge(next.bytes, limit)) else
    var used := Minus(usage.bytes, match previous case None => 0 case Some(p) => p.bytes);
    var otherHeadroom := Minus(usage.headroomBytes, match previous case None => 0 case Some(p) => p.headroom);
    var requested := next.bytes + otherHeadroom + next.headroom;
    if used + requested > MAX_QUEUE_BYTES then Some(QueueByteBudgetExceeded(used, requested, MAX_QUEUE_BYTES)) else None
  }

  lemma RewriteRefusal(usage: QueueUsage, previous: Footprint, next: Footprint)
    requires previous.bytes <= usage.bytes && previous.headroom <= usage.headroomBytes
    ensures WriteRefusal(usage, Some(previous), next) == None <==>
      && usage.count <= MAX_QUEUE_ENTRIES
      && next.bytes <= MAX_ENTRY_BYTES
      && usage.bytes - previous.bytes + (usage.headroomBytes - previous.headroom) + next.bytes + next.headroom <= MAX_QUEUE_BYTES
  {
  }

  /** Writing one entry into the stored ones: whether a limit refuses it. */
  ghost function Refusal(fixed: FixedBytes, m: Entries, e: StoredEntry): Option<StoreError> {
    WriteRefusal(UsageOf(fixed, m), if e.id in m then Some(FootprintOf(fixed, m[e.id])) else None, FootprintOf(fixed, e))
  }

  function AccountedOf(fixed: FixedBytes): StoredEntry -> nat {
    e => EntryBytes(fixed, e) + EntryHeadroom(e)
  }

  /** The state every admitted store is in: reservations included, it is within every limit. */
  ghost predicate Admitted(fixed: FixedBytes, m: Entries) {
    && WellKeyed(m)
    && |m| <= MAX_QUEUE_ENTRIES
    && Sum(m, AccountedOf(fixed)) <= MAX_QUEUE_BYTES
    && forall id :: id in m ==>
         UuidFields(m[id]) && EntryBytes(fixed, m[id]) + MaximumMutationGrowth(m[id]) <= MAX_ENTRY_BYTES
  }

  lemma AccountedSplits(fixed: FixedBytes, m: Entries)
    ensures Sum(m, AccountedOf(fixed)) == Sum(m, SizeOf(fixed)) + Sum(m, HeadroomOf)
  {
    SumAdds(m, SizeOf(fixed), HeadroomOf, AccountedOf(fixed));
  }

  lemma AdmittedKeyed(fixed: FixedBytes, m: Entries)
    requires Admitted(fixed, m)
    ensures WellKeyed(m)
  {
  }

  /** An admitted store passes every check at startup, the one over bytes and headroom included. */
  lemma AdmittedIsReadable(fixed: FixedBytes, m: Entries)
    requires Admitted(fixed, m)
    ensures Readable(fixed, m)
    ensures Sum(m, SizeOf(fixed)) + Sum(m, HeadroomOf) <= MAX_QUEUE_BYTES
  {
    AccountedSplits(fixed, m);
  }

  lemma UsageWithout(fixed: FixedBytes, m: Entries, id: string)
    requires id in m
    ensures
      var usage := UsageOf(fixed, m);
      usage.bytes - EntryBytes(fixed, m[id]) + (usage.headroomBytes - EntryHeadroom(m[id])) == Sum(m - {id}, AccountedOf(fixed))
    ensures UsageOf(fixed, m).bytes >= EntryBytes(fixed, m[id]) && UsageOf(fixed, m).headroomBytes >= EntryHeadroom(m[id])
  {
    SumRemove(m, SizeOf(fixed), id);
    SumRemove(m, HeadroomOf, id);
    AccountedSplits(fixed, m - {id});
  }

  /**
  Reserved headroom suffices: no limit refuses a later rewrite of the order,
  claim or first incarnation of an admitted entry, and the store stays admitted.
  */
  lemma MutationNeverRefused(fixed: FixedBytes, m: Entries, e: StoredEntry)
    requires Admitted(fixed, m)
    requires e.id in m && SameFixed(e, m[e.id]) && UuidFields(e)
    ensures Refusal(fixed, m, e) == None
    ensures Admitted(fixed, m[e.id := e])
  {
    hide Sum, EntryBytes, EntryHeadroom, MaximumMutationGrowth, WriteRefusal;
    AccountingIsConserved(fixed, m[e.id], e);
    UsageWithout(fixed, m, e.id);
    RewriteRefusal(UsageOf(fixed, m), FootprintOf(fixed, m[e.id]), FootprintOf(fixed, e));
    SumRemove(m, AccountedOf(fixed), e.id);
    SumUpdate(m, AccountedOf(fixed), e.id, e);
  }

  /** What a put has to fit under. */
  lemma PutRefusal(fixed: FixedBytes, m: Entries, e: StoredEntry)
    requires e.id !in m
    ensures Refusal(fixed, m, e) == None <==>
      && |m| < MAX_QUEUE_ENTRIES
      && EntryBytes(fixed, e) <= MAX_ENTRY_BYTES - ENTRY_MUTATION_HEADROOM_BYTES
      && Sum(m[e.id := e], AccountedOf(fixed)) <= MAX_QUEUE_BYTES
  {
    AccountedSplits(fixed, m);
    SumFresh(m, AccountedOf(fixed), e);
  }

  /** An enqueued entry that no limit refuses leaves the store admitted. */
  lemma PutStaysAdmitted(fixed: FixedBytes, m: Entries, e: StoredEntry)
    requires Admitted(fixed, m)
    requires e.id !in m && e.incarnation != "" && e.claimToken == None && UuidFields(e)
    requires Refusal(fixed, m, e) == None
    ensures Admitted(fixed, m[e.id := e])
  {
    PutRefusal(fixed, m, e);
    OrderWidthBound(e.order);
    assert |m[e.id := e]| == |m| + 1;
  }

  lemma {:induction false} RemovalStaysAdmitted(fixed: FixedBytes, m: Entries, id: string)
    requires Admitted(fixed, m)
    ensures Admitted(fixed, m - {id})
  {
    if id in m {
      SumRemove(m, AccountedOf(fixed), id);
    } else {
      assert m - {id} == m;
    }
  }
}
