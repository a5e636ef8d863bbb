/** `_merge_recommended_registry` in app/app.py: merging recommendations into a capped registry acts like list
    concatenation, at the cap included. */
module RecommendedRegistry {
  import opened Wrappers
  import opened ListingKeys

  /** `index` is what `int(entry.get("index", 0))` gives, if anything; `rest` holds the fields carried along. */
  datatype Entry = Entry(index: Option<int>, address: string, price: Option<string>, url: string, rest: string)

  datatype Status = Included | Excluded | Unverified

  datatype Recommendation = Recommendation(
    address: string, price: Option<string>, url: string, rest: string, status: Status)

  datatype Key = ByUrl(url: string) | ByAddress(address: string, price: string)

  /** `_registry_entry_key` */
  function EntryKey(url: string, address: string, price: Option<string>): Option<Key> {
    if UrlKey(url) != "" then Some(ByUrl(UrlKey(url)))
    else if AddressKey(address) != "" then Some(ByAddress(AddressKey(address), PriceKey(price)))
    else None
  }

  function KeyOf(e: Entry): Option<Key> { EntryKey(e.url, e.address, e.price) }

  function KeyOfRec(r: Recommendation): Option<Key> { EntryKey(r.url, r.address, r.price) }

  function Keys(reg: seq<Entry>): set<Key> {
    if reg == [] then {}
    else Keys(reg[..|reg| - 1]) + if KeyOf(reg[|reg| - 1]).Some? then {KeyOf(reg[|reg| - 1]).value} else {}
  }

  function MaxIndex(reg: seq<Entry>): int {
    if reg == [] then 0
    else
      var m, i := MaxIndex(reg[..|reg| - 1]), reg[|reg| - 1].index;
      if i.Some? && i.value > m then i.value else m
  }

  function NewEntry(index: int, r: Recommendation): Entry {
    Entry(Some(index), r.address, r.price, r.url, r.rest)
  }

  /** A recommendation the registry could take up: verified, identifiable and new. */
  predicate Eligible(reg: seq<Entry>, r: Recommendation) {
    r.status.Included? && KeyOfRec(r).Some? && KeyOfRec(r).value !in Keys(reg)
  }

  function Add(reg: seq<Entry>, r: Recommendation, cap: nat): seq<Entry> {
    if Eligible(reg, r) && |reg| < cap then reg + [NewEntry(MaxIndex(reg) + 1, r)] else reg
  }

  function Merge(reg: seq<Entry>, recs: seq<Recommendation>, cap: nat): seq<Entry> {
    if recs == [] then reg else Add(Merge(reg, recs[..|recs| - 1], cap), recs[|recs| - 1], cap)
  }

  lemma AppendEntry(reg: seq<Entry>, e: Entry)
    ensures Keys(reg + [e]) == Keys(reg) + if KeyOf(e).Some? then {KeyOf(e).value} else {}
    ensures MaxIndex(reg + [e]) == if e.index.Some? && e.index.value > MaxIndex(reg) then e.index.value else MaxIndex(reg)
  {
    assert (reg + [e])[..|reg|] == reg;
  }

  lemma {:induction false} FullStays(reg: seq<Entry>, recs: seq<Recommendation>, k: nat, cap: nat)
    requires k <= |recs| && |Merge(reg, recs[..k], cap)| >= cap
    ensures Merge(reg, recs, cap) == Merge(reg, recs[..k], cap)
    decreases |recs| - k
  {
    if k < |recs| {
      assert recs[..k + 1][..k] == recs[..k];
      FullStays(reg, recs, k + 1, cap);
    } else {
      assert recs[..k] == recs;
    }
  }

  /** The first loop: the keys and the largest index of the existing entries. */
  method ScanRegistry(existing: seq<Entry>) returns (seen: set<Key>, maxIndex: int)
    ensures seen == Keys(existing) && maxIndex == MaxIndex(existing)
  {
    hide EntryKey;
    seen, maxIndex := {}, 0;
    for i := 0 to |existing|
      invariant seen == Keys(existing[..i]) && maxIndex == MaxIndex(existing[..i])
    {
      assert existing[..i + 1][..i] == existing[..i];
      var e := existing[i];
      if KeyOf(e).Some? { seen := seen + {KeyOf(e).value}; }
      if e.index.Some? && e.index.value > maxIndex { maxIndex := e.index.value; }
    }
    assert existing[..|existing|] == existing;
  }

  lemma MergeNext(reg: seq<Entry>, recs: seq<Recommendation>, i: nat, cap: nat)
    requires i < |recs|
    ensures Merge(reg, recs[..i + 1], cap) == Add(Merge(reg, recs[..i], cap), recs[i], cap)
  {
    assert recs[..i + 1][..i] == recs[..i];
  }

  /** The loop with its running key set, running maximum and early exit. */
  method MergeRecommendedRegistry(existing: seq<Entry>, recs: seq<Recommendation>, cap: nat) returns (registry: seq<Entry>)
    ensures registry == Merge(existing, recs, cap)
  {
    hide EntryKey, Merge, Keys, MaxIndex;
    var seen, maxIndex := ScanRegistry(existing);
    registry := existing;
    NothingMerged(existing, recs, cap);
    for i := 0 to |recs|
      invariant registry == Merge(existing, recs[..i], cap)
      invariant seen == Keys(registry) && maxIndex == MaxIndex(registry)
    {
      MergeNext(existing, recs, i, cap);
      var r := recs[i];
      if r.status.Included? {
        var key := KeyOfRec(r);
        if key.Some? && key.value !in seen {
          if |registry| >= cap {
            FullStays(existing, recs, i, cap);
            return;
          }
          maxIndex := maxIndex + 1;
          AppendEntry(registry, NewEntry(maxIndex, r));
          registry := registry + [NewEntry(maxIndex, r)];
          seen := seen + {key.value};
        }
      }
    }
    assert recs[..|recs|] == recs;
  }

  lemma NothingMerged(reg: seq<Entry>, recs: seq<Recommendation>, cap: nat)
    ensures Merge(reg, recs[..0], cap) == reg
  {
  }

  /** Merging twice is merging the concatenation, whatever the cap. */
  lemma {:induction false} MergeIsAction(reg: seq<Entry>, a: seq<Recommendation>, b: seq<Recommendation>, cap: nat)
    ensures Merge(Merge(reg, a, cap), b, cap) == Merge(reg, a + b, cap)
  {
    if b == [] {
      assert a + b == a;
    } else {
      MergeIsAction(reg, a, b[..|b| - 1], cap);
      assert (a + b)[..|a + b| - 1] == a + b[..|b| - 1];
    }
  }

  /** Nothing more would come of this recommendation. */
  predicate Settled(reg: seq<Entry>, r: Recommendation, cap: nat) {
    !Eligible(reg, r) || |reg| >= cap
  }

  lemma {:induction false} AddSettles(reg: seq<Entry>, r: Recommendation, q: Recommendation, cap: nat)
    ensures Settled(Add(reg, r, cap), r, cap)
    ensures Settled(reg, q, cap) ==> Settled(Add(reg, r, cap), q, cap)
  {
    hide EntryKey;
    AppendEntry(reg, NewEntry(MaxIndex(reg) + 1, r));
  }

  lemma {:induction false} MergeSettles(reg: seq<Entry>, recs: seq<Recommendation>, cap: nat)
    ensures forall r :: r in recs ==> Settled(Merge(reg, recs, cap), r, cap)
  {
    hide Add, Settled;
    if recs != [] {
      var init, last := recs[..|recs| - 1], recs[|recs| - 1];
      MergeSettles(reg, init, cap);
      assert recs == init + [last];
      forall r | r in recs ensures Settled(Merge(reg, recs, cap), r, cap) {
        AddSettles(Merge(reg, init, cap), last, r, cap);
      }
    }
  }

  lemma {:induction false} SettledUnchanged(reg: seq<Entry>, recs: seq<Recommendation>, cap: nat)
    requires forall r :: r in recs ==> Settled(reg, r, cap)
    ensures Merge(reg, recs, cap) == reg
  {
    hide Eligible;
    if recs != [] {
      assert recs[|recs| - 1] in recs;
      SettledUnchanged(reg, recs[..|recs| - 1], cap);
    }
  }

  /** Merging the same recommendations again changes nothing. */
  lemma {:induction false} MergeIdempotent(reg: seq<Entry>, recs: seq<Recommendation>, cap: nat)
    ensures Merge(Merge(reg, recs, cap), recs, cap) == Merge(reg, recs, cap)
  {
    MergeSettles(reg, recs, cap);
    SettledUnchanged(Merge(reg, recs, cap), recs, cap);
  }

  /** What the entries past the old ones look like: new indices above every index before them, new keys unlike
      every key before them, each from an eligible recommendation. */
  ghost predicate FreshTail(reg: seq<Entry>, n: nat, recs: seq<Recommendation>) {
    forall k :: n <= k < |reg| ==>
      && reg[k].index == Some(MaxIndex(reg[..k]) + 1)
      && KeyOf(reg[k]).Some? && KeyOf(reg[k]).value !in Keys(reg[..k])
      && exists r :: r in recs && r.status.Included? && reg[k] == NewEntry(MaxIndex(reg[..k]) + 1, r)
  }

  /** Existing entries stay as a verbatim prefix, everything after them is fresh, the length never exceeds the
      larger of the old length and the cap, and below the cap nothing identifiable is missing. */
  lemma {:induction false} MergeShape(reg: seq<Entry>, recs: seq<Recommendation>, cap: nat)
    ensures var m := Merge(reg, recs, cap);
            && reg <= m && FreshTail(m, |reg|, recs)
            && (|m| <= |reg| || |m| <= cap)
            && (|m| < cap ==>
                  forall r :: r in recs && r.status.Included? && KeyOfRec(r).Some? ==> KeyOfRec(r).value in Keys(m))
  {
    MergeSettles(reg, recs, cap);
    hide EntryKey, Keys, MaxIndex;
    if recs != [] {
      var init, last := recs[..|recs| - 1], recs[|recs| - 1];
      MergeShape(reg, init, cap);
      assert recs == init + [last];
      var m, t := Merge(reg, init, cap), Merge(reg, recs, cap);
      forall k | |reg| <= k < |t|
        ensures t[k].index == Some(MaxIndex(t[..k]) + 1)
        ensures KeyOf(t[k]).Some? && KeyOf(t[k]).value !in Keys(t[..k])
        ensures exists r :: r in recs && r.status.Included? && t[k] == NewEntry(MaxIndex(t[..k]) + 1, r)
      {
        if k < |m| {
          assert t[..k] == m[..k];
          var r :| r in init && r.status.Included? && m[k] == NewEntry(MaxIndex(m[..k]) + 1, r);
          assert r in recs;
        } else {
          assert t[..k] == m;
          assert last in recs;
        }
      }
    }
  }

  /* --- on the fields of entries and recommendations --- */

  /** The entry is of the recommended listing: they share a URL, or neither has one and they share name and price. */
  ghost predicate SameListing(e: Entry, r: Recommendation) {
    && UrlKey(e.url) == UrlKey(r.url)
    && (UrlKey(r.url) != ""
        || (AddressKey(r.address) != "" && AddressKey(e.address) == AddressKey(r.address) && PriceKey(e.price) == PriceKey(r.price)))
  }

  /** The largest of zero and the indices. */
  ghost predicate IsTop(reg: seq<Entry>, top: int) {
    && (top == 0 || exists e :: e in reg && e.index == Some(top))
    && top >= 0 && forall e :: e in reg && e.index.Some? ==> e.index.value <= top
  }

  lemma {:induction false} TopIsMax(reg: seq<Entry>)
    ensures IsTop(reg, MaxIndex(reg))
  {
    if reg != [] {
      var init := reg[..|reg| - 1];
      TopIsMax(init);
      assert reg == init + [reg[|reg| - 1]];
    }
  }

  lemma {:induction false} KeyKnown(reg: seq<Entry>, r: Recommendation)
    requires KeyOfRec(r).Some?
    ensures KeyOfRec(r).value in Keys(reg) <==> exists e :: e in reg && SameListing(e, r)
  {
    hide UrlKey, AddressKey, PriceKey;
    if reg != [] {
      var init, last := reg[..|reg| - 1], reg[|reg| - 1];
      KeyKnown(init, r);
      assert reg == init + [last];
      assert KeyOf(last) == KeyOfRec(r) <==> SameListing(last, r);
    }
  }

  /** One more recommendation is appended, with its own fields and the next index, if it is included, has a URL or
      a name, is the listing of no entry, and there is room. */
  lemma {:induction false} MergeGrows(reg: seq<Entry>, recs: seq<Recommendation>, r: Recommendation, cap: nat, top: int)
    requires IsTop(Merge(reg, recs, cap), top)
    ensures Merge(reg, [], cap) == reg
    ensures var m := Merge(reg, recs, cap);
            Merge(reg, recs + [r], cap) ==
            if r.status == Included && (UrlKey(r.url) != "" || AddressKey(r.address) != "") && |m| < cap
               && forall e :: e in m ==> !SameListing(e, r) then
              m + [Entry(Some(top + 1), r.address, r.price, r.url, r.rest)] else m
  {
    var m := Merge(reg, recs, cap);
    assert (recs + [r])[..|recs|] == recs;
    TopIsMax(m);
    EligibleExact(m, r);
    hide IsTop, SameListing, Eligible;
    assert MaxIndex(m) == top by { TopUnique(m, top, MaxIndex(m)); }
  }

  lemma EligibleExact(m: seq<Entry>, r: Recommendation)
    ensures Eligible(m, r) <==> r.status == Included && (UrlKey(r.url) != "" || AddressKey(r.address) != "")
                                && forall e :: e in m ==> !SameListing(e, r)
  {
    hide UrlKey, AddressKey, PriceKey, SameListing;
    if KeyOfRec(r).Some? { KeyKnown(m, r); }
  }

  lemma TopUnique(m: seq<Entry>, a: int, b: int)
    requires IsTop(m, a) && IsTop(m, b)
    ensures a == b
  {
  }

  lemma {:induction false} MaxIndexBounds(reg: seq<Entry>, k: nat)
    requires k < |reg|
    ensures reg[k].index.Some? ==> reg[k].index.value <= MaxIndex(reg)
  {
    if k < |reg| - 1 {
      MaxIndexBounds(reg[..|reg| - 1], k);
    }
  }

  /** New indices strictly increase and repeat no index before them. */
  lemma {:induction false} NewIndicesIncrease(reg: seq<Entry>, recs: seq<Recommendation>, cap: nat, j: nat, k: nat)
    requires j < k < |Merge(reg, recs, cap)| && |reg| <= k
    requires Merge(reg, recs, cap)[j].index.Some?
    ensures Merge(reg, recs, cap)[k].index.Some?
    ensures Merge(reg, recs, cap)[j].index.value < Merge(reg, recs, cap)[k].index.value
  {
    hide EntryKey, Keys, MaxIndex;
    MergeShape(reg, recs, cap);
    var m := Merge(reg, recs, cap);
    MaxIndexBounds(m[..k], j);
  }
}
