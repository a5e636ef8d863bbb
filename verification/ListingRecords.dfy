/** What `_match_listing_by_address` and `_resolve_focus_listing` in app/app.py say of the rows themselves: which row a
    card is bound to and what the context then holds. */
module ListingRecords {
  import opened Wrappers
  import opened ListingKeys
  import opened Sequences
  import opened ListingIdentity

  /* --- the candidates of a name --- */

  /** A row of the payload's name that its URL does not rule out. */
  ghost predicate Fits(r: Row, p: Payload) {
    && AddressKey(r.address) == AddressKey(p.address)
    && (UrlKey(p.url) == "" || UrlKey(r.url) == "" || UrlKey(r.url) == UrlKey(p.url))
  }

  /** Several rows fit, and one of them has the payload's price. */
  ghost predicate PriceDecides(rows: seq<Row>, p: Payload) {
    && PriceKey(p.price) != ""
    && (exists i, j :: 0 <= i < j < |rows| && Fits(rows[i], p) && Fits(rows[j], p))
    && exists r :: r in rows && Fits(r, p) && PriceKey(r.price) == PriceKey(p.price)
  }

  ghost predicate IsCandidate(rows: seq<Row>, p: Payload, r: Row) {
    Fits(r, p) && (PriceDecides(rows, p) ==> PriceKey(r.price) == PriceKey(p.price))
  }

  lemma {:induction false} FilterAgain<T>(s: seq<T>, f: T -> bool, g: T -> bool, h: T -> bool)
    requires forall x :: x in s ==> (h(x) <==> f(x) && g(x))
    ensures Filter(Filter(s, f), g) == Filter(s, h)
  {
    if s != [] {
      assert forall x :: x in s[1..] ==> x in s;
      FilterAgain(s[1..], f, g, h);
      assert s[0] in s;
      if f(s[0]) { assert Filter(s, f) == [s[0]] + Filter(s[1..], f); }
    }
  }

  lemma {:induction false} FilterAll<T>(s: seq<T>, f: T -> bool)
    requires forall x :: x in s ==> f(x)
    ensures Filter(s, f) == s
  {
    if s != [] {
      assert s[0] in s && forall x :: x in s[1..] ==> x in s;
      FilterAll(s[1..], f);
    }
  }

  lemma {:induction false} SeveralLeft<T>(s: seq<T>, f: T -> bool)
    ensures |Filter(s, f)| > 1 <==> exists i, j :: 0 <= i < j < |s| && f(s[i]) && f(s[j])
    ensures |Filter(s, f)| > 0 <==> exists i :: 0 <= i < |s| && f(s[i])
  {
    if s != [] {
      var n := |s| - 1;
      SeveralLeft(s[..n], f);
      FilterAppend(s[..n], s[n], f);
      assert s == s[..n] + [s[n]];
      if |Filter(s, f)| > 1 && |Filter(s[..n], f)| <= 1 {
        var i :| 0 <= i < n && f(s[..n][i]);
        assert f(s[i]) && f(s[n]);
      }
      if i, j :| 0 <= i < j < |s| && f(s[i]) && f(s[j]) { assert f(s[..n][i]) && (j < n ==> f(s[..n][j])); }
      if i :| 0 <= i < |s| && f(s[i]) { assert i < n ==> f(s[..n][i]); }
    }
  }

  ghost function Fitting(p: Payload): Row -> bool { (r: Row) => Fits(r, p) }
  ghost function Candidate(rows: seq<Row>, p: Payload): Row -> bool { (r: Row) => IsCandidate(rows, p, r) }

  lemma FittingFiltered(rows: seq<Row>, p: Payload)
    ensures var named := Filter(rows, AtAddress(AddressKey(p.address)));
            (if UrlKey(p.url) != "" then Filter(named, UrlFits(UrlKey(p.url))) else named) == Filter(rows, Fitting(p))
  {
    hide UrlKey, AddressKey;
    var named := Filter(rows, AtAddress(AddressKey(p.address)));
    if UrlKey(p.url) != "" {
      FilterAgain(rows, AtAddress(AddressKey(p.address)), UrlFits(UrlKey(p.url)), Fitting(p));
    } else {
      FilterAgain(rows, AtAddress(AddressKey(p.address)), Fitting(p), Fitting(p));
      FilterMembers(rows, AtAddress(AddressKey(p.address)));
      FilterAll(named, Fitting(p));
    }
  }

  /** The candidates of a name, in order: the fitting rows, or only those at the payload's price when several fit and
      one of them has it. */
  lemma {:induction false} CandidatesExact(rows: seq<Row>, p: Payload)
    ensures Candidates(rows, p) == Filter(rows, Candidate(rows, p))
    ensures forall r :: r in Candidates(rows, p) <==> r in rows && IsCandidate(rows, p, r)
  {
    hide UrlKey, AddressKey, PriceKey, Fits;
    var fitting := Filter(rows, Fitting(p));
    FittingFiltered(rows, p);
    SeveralLeft(rows, Fitting(p));
    FilterMembers(rows, Fitting(p));
    FilterMembers(fitting, AtPrice(PriceKey(p.price)));
    var priced := Filter(fitting, AtPrice(PriceKey(p.price)));
    assert priced != [] <==> exists r :: r in rows && Fits(r, p) && PriceKey(r.price) == PriceKey(p.price) by {
      if priced != [] { assert priced[0] in priced; }
    }
    if PriceDecides(rows, p) {
      FilterAgain(rows, Fitting(p), AtPrice(PriceKey(p.price)), Candidate(rows, p));
    } else {
      FilterAgain(rows, Fitting(p), Candidate(rows, p), Candidate(rows, p));
      FilterAll(fitting, Candidate(rows, p));
    }
    FilterMembers(rows, Candidate(rows, p));
  }

  /** A payload with a price that some fitting row has is never bound by name to a row at another price. */
  lemma {:induction false} NeverAnotherPrice(rows: seq<Row>, p: Payload)
    requires PriceKey(p.price) != ""
    requires exists r :: r in rows && Fits(r, p) && PriceKey(r.price) == PriceKey(p.price)
    ensures var hit := MatchByAddress(rows, AddressKey(p.address), UrlKey(p.url), PriceKey(p.price)).0;
            hit.Some? ==> PriceKey(hit.value.price) == PriceKey(p.price)
  {
    hide UrlKey, AddressKey, PriceKey, Fits, Narrowed;
    var hit := MatchByAddress(rows, AddressKey(p.address), UrlKey(p.url), PriceKey(p.price)).0;
    if hit.Some? {
      MatchExact(rows, AddressKey(p.address), UrlKey(p.url), PriceKey(p.price));
      CandidatesExact(rows, p);
      var r :| r in rows && Fits(r, p) && PriceKey(r.price) == PriceKey(p.price);
      if hit.value != r {
        var i :| 0 <= i < |rows| && rows[i] == r;
        var j :| 0 <= j < |rows| && rows[j] == hit.value;
        assert Fits(rows[i], p) && Fits(rows[j], p) && i != j;
        assert PriceDecides(rows, p);
      }
    }
  }

  /* --- the row that is bound --- */

  /** Row `i` is the first with the property. */
  ghost predicate IsFirst<T>(s: seq<T>, f: T -> bool, i: int) {
    0 <= i < |s| && f(s[i]) && forall j :: 0 <= j < i ==> !f(s[j])
  }

  lemma {:induction false} FirstFiltered<T>(s: seq<T>, f: T -> bool)
    ensures Filter(s, f) == [] ==> forall i :: 0 <= i < |s| ==> !f(s[i])
    ensures Filter(s, f) != [] ==> exists i :: 0 <= i < |s| && IsFirst(s, f, i) && s[i] == Filter(s, f)[0]
  {
    if s != [] {
      FirstFiltered(s[1..], f);
      if f(s[0]) {
        assert IsFirst(s, f, 0);
      } else if Filter(s, f) != [] {
        var i :| 0 <= i < |s[1..]| && IsFirst(s[1..], f, i) && s[1..][i] == Filter(s[1..], f)[0];
        assert IsFirst(s, f, i + 1);
      }
    }
  }

  /** By name: the first candidate, if all candidates have one URL identity. */
  ghost predicate NameBinds(rows: seq<Row>, p: Payload, i: int) {
    && AddressKey(p.address) != ""
    && (forall r, s :: r in rows && s in rows && IsCandidate(rows, p, r) && IsCandidate(rows, p, s) ==>
          UrlKey(r.url) == UrlKey(s.url))
    && IsFirst(rows, Candidate(rows, p), i)
  }

  ghost function HasUrl(p: Payload): Row -> bool { (r: Row) => UrlKey(r.url) == UrlKey(p.url) }

  /** By the payload's URL if a row has it, the first such row; otherwise by name. */
  ghost predicate Binds(rows: seq<Row>, p: Payload, i: int) {
    if UrlKey(p.url) != "" && exists r :: r in rows && UrlKey(r.url) == UrlKey(p.url)
    then IsFirst(rows, HasUrl(p), i) else NameBinds(rows, p, i)
  }

  lemma {:induction false} NameBindsExact(rows: seq<Row>, p: Payload)
    ensures var hit := MatchByAddress(rows, AddressKey(p.address), UrlKey(p.url), PriceKey(p.price)).0;
            && (hit.Some? ==> exists i :: 0 <= i < |rows| && NameBinds(rows, p, i) && rows[i] == hit.value)
            && (hit.None? ==> forall i :: !NameBinds(rows, p, i))
  {
    hide UrlKey, AddressKey, PriceKey, Fits, Narrowed, PriceDecides, IsCandidate, IsFirst;
    var hit := MatchByAddress(rows, AddressKey(p.address), UrlKey(p.url), PriceKey(p.price)).0;
    var cands := Candidates(rows, p);
    CandidatesExact(rows, p);
    FirstFiltered(rows, Candidate(rows, p));
    if AddressKey(p.address) != "" {
      MatchExact(rows, AddressKey(p.address), UrlKey(p.url), PriceKey(p.price));
      if hit.Some? {
        var i :| 0 <= i < |rows| && IsFirst(rows, Candidate(rows, p), i) && rows[i] == cands[0];
        assert NameBinds(rows, p, i);
      } else {
        forall i ensures !NameBinds(rows, p, i) { if cands == [] { FirstHolds(rows, Candidate(rows, p), i); } }
      }
    }
  }

  lemma FirstHolds<T>(s: seq<T>, f: T -> bool, i: int)
    ensures IsFirst(s, f, i) ==> 0 <= i < |s| && f(s[i])
  {
  }

  lemma {:induction false} FirstAtUrlFirst(rows: seq<Row>, p: Payload)
    ensures FirstAtUrl(rows, UrlKey(p.url)).Some? ==>
              exists i :: 0 <= i < |rows| && IsFirst(rows, HasUrl(p), i) && rows[i] == FirstAtUrl(rows, UrlKey(p.url)).value
  {
    hide UrlKey;
    if rows != [] {
      FirstAtUrlFirst(rows[1..], p);
      if UrlKey(rows[0].url) == UrlKey(p.url) {
        assert IsFirst(rows, HasUrl(p), 0);
      } else if FirstAtUrl(rows[1..], UrlKey(p.url)).Some? {
        var i :| 0 <= i < |rows[1..]| && IsFirst(rows[1..], HasUrl(p), i) && rows[1..][i] == FirstAtUrl(rows[1..], UrlKey(p.url)).value;
        assert IsFirst(rows, HasUrl(p), i + 1);
      }
    }
  }

  /** A source with URLs binds exactly the row that the URL or else the name picks. */
  lemma {:induction false} BindsExact(rows: seq<Row>, p: Payload)
    ensures Hit(rows, p).0.Some? ==> exists i :: 0 <= i < |rows| && Binds(rows, p, i) && rows[i] == Hit(rows, p).0.value
    ensures Hit(rows, p).0.None? ==> forall i :: !Binds(rows, p, i)
  {
    hide UrlKey, AddressKey, PriceKey, NameBinds, MatchByAddress, IsFirst, FirstAtUrl;
    FirstAtUrlExact(rows, UrlKey(p.url));
    FirstAtUrlFirst(rows, p);
    NameBindsExact(rows, p);
  }

  lemma {:induction false} BindsOnce(rows: seq<Row>, p: Payload, i: int, j: int)
    ensures Binds(rows, p, i) && Binds(rows, p, j) ==> i == j && 0 <= i < |rows|
    ensures NameBinds(rows, p, i) && NameBinds(rows, p, j) ==> i == j && 0 <= i < |rows|
  {
    hide UrlKey, AddressKey, IsCandidate;
    FirstOnce(rows, HasUrl(p), i, j);
    FirstOnce(rows, Candidate(rows, p), i, j);
    hide IsFirst;
  }

  lemma FirstOnce<T>(s: seq<T>, f: T -> bool, i: int, j: int)
    ensures IsFirst(s, f, i) && IsFirst(s, f, j) ==> i == j && 0 <= i < |s|
  {
  }

  /* --- what the context then holds --- */

  /** A session row wins with its own fields; what it lacks comes from the payload, except for the URL. */
  lemma {:induction false} SessionBinds(p: Payload, session: seq<Row>, csv: seq<Row>, registry: seq<Row>,
                                        cache: Option<Cache>, i: int)
    requires Binds(session, p, i)
    ensures 0 <= i < |session|
    ensures var row := session[i];
            Resolve(p, session, csv, registry, cache) ==
            Resolved(if row.address == "" then p.address else row.address, if row.price == None then p.price else row.price,
                     Some(row.url), row.detail, Session)
  {
    hide Binds, Hit, NameBinds;
    BindsExact(session, p);
    BindsOnce(session, p, i, i);
    if j :| 0 <= j < |session| && Binds(session, p, j) && session[j] == Hit(session, p).0.value { BindsOnce(session, p, i, j); }
  }

  /** Without one, a registry row wins. The URL is its own, or else the payload's; a listing the cache has under that URL
      replaces what it knows better: address and price unless empty, the carried fields, and the URL unless empty. */
  lemma {:induction false} RegistryBinds(p: Payload, session: seq<Row>, csv: seq<Row>, registry: seq<Row>,
                                         cache: Option<Cache>, i: int)
    requires (forall j :: !Binds(session, p, j)) && Binds(registry, p, i)
    ensures 0 <= i < |registry|
    ensures var row := registry[i];
            var address := if row.address == "" then p.address else row.address;
            var price := if row.price == None then p.price else row.price;
            var url := if row.url == "" then p.url else row.url;
            Resolve(p, session, csv, registry, cache) ==
            if url == "" || cache == None || cache.value(url) == None
            then Resolved(address, price, Some(url), row.detail, Registry)
            else
              var full := cache.value(url).value;
              Resolved(if full.address == "" then address else full.address,
                       if full.price == None || full.price == Some("") then price else full.price,
                       Some(if full.url == "" then url else full.url), full.detail, RegistryAndCache)
  {
    hide Binds, Hit, NameBinds;
    BindsExact(session, p);
    BindsExact(registry, p);
    BindsOnce(registry, p, i, i);
    if j :| 0 <= j < |registry| && Binds(registry, p, j) && registry[j] == Hit(registry, p).0.value { BindsOnce(registry, p, i, j); }
    SomeEmpty();
  }

  lemma SomeEmpty()
    ensures forall price: Option<string> :: price.Some? && price.value == "" <==> price == Some("")
  {
  }

  /** Without either, a CSV row is bound by name, and only its URL and carried fields are taken; without any, the payload
      stands alone, marked ambiguous when some source had several listings of the name. */
  lemma {:induction false} CsvBinds(p: Payload, session: seq<Row>, csv: seq<Row>, registry: seq<Row>,
                                    cache: Option<Cache>)
    requires (forall j :: !Binds(session, p, j)) && forall j :: !Binds(registry, p, j)
    ensures var r := Resolve(p, session, csv, registry, cache);
            && r.address == p.address && r.price == p.price
            && (forall i :: NameBinds(csv, p, i) ==>
                  0 <= i < |csv| && r.url == Some(csv[i].url) && r.detail == csv[i].detail && r.source == Csv)
            && ((forall i :: !NameBinds(csv, p, i)) ==> r.url == None && r.detail == "" && r.source in {Ambiguous, Scalar})
  {
    hide Binds, Hit, NameBinds, MatchByAddress;
    BindsExact(session, p);
    BindsExact(registry, p);
    NameBindsExact(csv, p);
    var hit := MatchByAddress(csv, AddressKey(p.address), UrlKey(p.url), PriceKey(p.price)).0;
    forall i | NameBinds(csv, p, i) ensures 0 <= i < |csv| && hit.Some? && hit.value == csv[i] {
      BindsOnce(csv, p, i, i);
      var j :| 0 <= j < |csv| && NameBinds(csv, p, j) && csv[j] == hit.value;
      BindsOnce(csv, p, i, j);
    }
  }

  /** An unbound card is ambiguous exactly when some source has two candidates of the name with different URLs; a
      source that holds the card's URL is not asked for its name. */
  lemma {:induction false} AmbiguousExactly(p: Payload, session: seq<Row>, csv: seq<Row>, registry: seq<Row>,
                                            cache: Option<Cache>)
    requires Resolve(p, session, csv, registry, cache).url.None?
    ensures Resolve(p, session, csv, registry, cache).source == Ambiguous <==>
            AddressKey(p.address) != "" && (Divided(session, p) || Divided(registry, p) || Divided(csv, p))
  {
    hide UrlKey, AddressKey, PriceKey, Singular, Resolve, Narrowed, IsCandidate;
    ResolveExact(p, session, csv, registry, cache);
    DividedExact(session, p);
    DividedExact(registry, p);
    DividedExact(csv, p);
    NotHeld(session, p);
    NotHeld(registry, p);
    hide NamesSeveral, Divided, HoldsUrl, NamesOne;
  }

  ghost predicate Divided(rows: seq<Row>, p: Payload) {
    exists r, s :: r in rows && s in rows && IsCandidate(rows, p, r) && IsCandidate(rows, p, s)
                   && UrlKey(r.url) != UrlKey(s.url)
  }

  lemma DividedExact(rows: seq<Row>, p: Payload)
    ensures NamesSeveral(rows, p) <==> AddressKey(p.address) != "" && Divided(rows, p)
  {
    hide UrlKey, AddressKey, PriceKey, Narrowed, IsCandidate;
    CandidatesExact(rows, p);
    hide Candidates;
  }

  lemma NotHeld(rows: seq<Row>, p: Payload)
    ensures !Singular(rows, p) ==> !HoldsUrl(rows, p)
  {
    hide HoldsUrl, NamesOne;
  }
}
