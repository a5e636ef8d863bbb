/** `_match_listing_by_address` and `_resolve_focus_listing` in app/app.py: which listing a card's payload is bound
    to, and how that depends on the order of the rows. */
module ListingIdentity {
  import opened Wrappers
  import opened ListingKeys
  import opened Sequences
  import opened Texts

  /** A session record, registry entry or CSV row; `detail` stands for the fields carried along. */
  datatype Row = Row(address: string, url: string, price: Option<string>, detail: string)

  datatype Payload = Payload(address: string, url: string, price: Option<string>)

  /** The injected lookup of a full listing by URL. */
  type Cache = string -> Option<Row>

  datatype Source = Session | RegistryAndCache | Registry | Csv | Ambiguous | Scalar

  /** The resolved context: `url` is absent when no listing is bound. */
  datatype Resolved = Resolved(address: string, price: Option<string>, url: Option<string>, detail: string, source: Source)

  function AtAddress(addrKey: string): Row -> bool { (r: Row) => AddressKey(r.address) == addrKey }
  function UrlFits(urlKey: string): Row -> bool { (r: Row) => UrlKey(r.url) == "" || UrlKey(r.url) == urlKey }
  function AtPrice(priceKey: string): Row -> bool { (r: Row) => PriceKey(r.price) == priceKey }

  /** The candidates after the address, the URL and, if several are left, the price have narrowed them. */
  function Narrowed(rows: seq<Row>, addrKey: string, urlKey: string, priceKey: string): seq<Row> {
    var named := Filter(rows, AtAddress(addrKey));
    var fitting := if urlKey != "" then Filter(named, UrlFits(urlKey)) else named;
    var priced := Filter(fitting, AtPrice(priceKey));
    if |fitting| > 1 && priceKey != "" && priced != [] then priced else fitting
  }

  function UrlKeys(rows: seq<Row>): set<string> {
    set r | r in rows :: UrlKey(r.url)
  }

  /** `_match_listing_by_address`: the bound row, and whether the name was ambiguous. */
  function MatchByAddress(rows: seq<Row>, addrKey: string, urlKey: string, priceKey: string): (Option<Row>, bool) {
    if addrKey == "" then (None, false)
    else
      var cands := Narrowed(rows, addrKey, urlKey, priceKey);
      if cands == [] then (None, false)
      else if |UrlKeys(cands)| > 1 then (None, true)
      else (Some(cands[0]), false)
  }

  function FirstAtUrl(rows: seq<Row>, urlKey: string): Option<Row> {
    if rows == [] then None else if UrlKey(rows[0].url) == urlKey then Some(rows[0]) else FirstAtUrl(rows[1..], urlKey)
  }

  /** URL first, then address; the flag is the address step's. */
  function Hit(rows: seq<Row>, p: Payload): (Option<Row>, bool) {
    var byUrl := if UrlKey(p.url) != "" then FirstAtUrl(rows, UrlKey(p.url)) else None;
    if byUrl.Some? then (byUrl, false)
    else MatchByAddress(rows, AddressKey(p.address), UrlKey(p.url), PriceKey(p.price))
  }

  function Or(a: string, b: string): string { if a != "" then a else b }

  function FromRegistry(hit: Row, p: Payload, cache: Option<Cache>): Resolved {
    var address, price := Or(hit.address, p.address), if hit.price.Some? then hit.price else p.price;
    var url := Or(hit.url, p.url);
    var full := if cache.Some? && url != "" then cache.value(url) else None;
    if full.Some? then
      Resolved(Or(full.value.address, address),
               if full.value.price.Some? && full.value.price.value != "" then full.value.price else price,
               Some(Or(full.value.url, url)), full.value.detail, RegistryAndCache)
    else Resolved(address, price, Some(url), hit.detail, Registry)
  }

  function FromSession(hit: Row, p: Payload): Resolved {
    Resolved(Or(hit.address, p.address), if hit.price.Some? then hit.price else p.price, Some(hit.url), hit.detail, Session)
  }

  function FromCsv(hit: Row, p: Payload): Resolved {
    Resolved(p.address, p.price, Some(hit.url), hit.detail, Csv)
  }

  function Unbound(p: Payload, ambiguous: bool): Resolved {
    Resolved(p.address, p.price, None, "", if ambiguous then Ambiguous else Scalar)
  }

  /** `_resolve_focus_listing` */
  function Resolve(p: Payload, session: seq<Row>, csv: seq<Row>, registry: seq<Row>, cache: Option<Cache>): Resolved {
    var (sessionHit, sessionAmbiguous) := Hit(session, p);
    if sessionHit.Some? then FromSession(sessionHit.value, p)
    else
      var (registryHit, registryAmbiguous) := Hit(registry, p);
      if registryHit.Some? then FromRegistry(registryHit.value, p, cache)
      else
        var (csvHit, csvAmbiguous) := MatchByAddress(csv, AddressKey(p.address), UrlKey(p.url), PriceKey(p.price));
        if csvHit.Some? then FromCsv(csvHit.value, p)
        else Unbound(p, sessionAmbiguous || registryAmbiguous || csvAmbiguous)
  }

  /* --- when one source binds --- */

  lemma {:induction false} OneKey(rows: seq<Row>)
    requires rows != []
    ensures |UrlKeys(rows)| <= 1 <==> forall r :: r in rows ==> UrlKey(r.url) == UrlKey(rows[0].url)
  {
    var keys, k := UrlKeys(rows), UrlKey(rows[0].url);
    assert rows[0] in rows;
    assert k in keys;
    if |keys| <= 1 {
      forall r | r in rows ensures UrlKey(r.url) == k {
        assert UrlKey(r.url) in keys;
        if UrlKey(r.url) != k { TwoKeys(keys, k, UrlKey(r.url)); }
      }
    }
    if forall r :: r in rows ==> UrlKey(r.url) == k {
      assert keys == {k};
    }
  }

  lemma TwoKeys(keys: set<string>, a: string, b: string)
    requires a in keys && b in keys && a != b
    ensures |keys| > 1
  {
    assert b in keys - {a};
    assert |keys| == |keys - {a}| + 1;
  }

  /** A bound row is a candidate, all candidates left share its URL key, and a name whose candidates have several
      URL keys is never bound. */
  lemma {:induction false} MatchExact(rows: seq<Row>, addrKey: string, urlKey: string, priceKey: string)
    requires addrKey != ""
    ensures var (hit, ambiguous) := MatchByAddress(rows, addrKey, urlKey, priceKey);
            var cands := Narrowed(rows, addrKey, urlKey, priceKey);
            && (hit.Some? <==> cands != [] && forall r, s :: r in cands && s in cands ==> UrlKey(r.url) == UrlKey(s.url))
            && (ambiguous <==> exists r, s :: r in cands && s in cands && UrlKey(r.url) != UrlKey(s.url))
            && (hit.Some? ==> hit.value in cands)
  {
    hide UrlKey, Narrowed;
    var cands := Narrowed(rows, addrKey, urlKey, priceKey);
    if cands != [] {
      OneKey(cands);
      assert cands[0] in cands;
    }
  }

  lemma {:induction false} FirstAtUrlExact(rows: seq<Row>, urlKey: string)
    ensures FirstAtUrl(rows, urlKey).Some? <==> exists r :: r in rows && UrlKey(r.url) == urlKey
    ensures FirstAtUrl(rows, urlKey).Some? ==>
              FirstAtUrl(rows, urlKey).value in rows && UrlKey(FirstAtUrl(rows, urlKey).value.url) == urlKey
  {
    hide UrlKey;
    if rows != [] {
      FirstAtUrlExact(rows[1..], urlKey);
      assert rows == [rows[0]] + rows[1..];
    }
  }

  lemma {:induction false} NarrowedMembers(rows: seq<Row>, addrKey: string, urlKey: string, priceKey: string)
    ensures forall r :: r in Narrowed(rows, addrKey, urlKey, priceKey) ==>
              r in rows && AddressKey(r.address) == addrKey && (urlKey != "" ==> UrlKey(r.url) in {"", urlKey})
  {
    hide UrlKey, AddressKey, PriceKey;
    var named := Filter(rows, AtAddress(addrKey));
    var fitting := if urlKey != "" then Filter(named, UrlFits(urlKey)) else named;
    FilterMembers(rows, AtAddress(addrKey));
    FilterMembers(named, UrlFits(urlKey));
    FilterMembers(fitting, AtPrice(priceKey));
  }

  /** What is left of a source's rows for a payload, by name. */
  function Candidates(rows: seq<Row>, p: Payload): seq<Row> {
    Narrowed(rows, AddressKey(p.address), UrlKey(p.url), PriceKey(p.price))
  }

  /** Some row has the payload's URL. */
  predicate HoldsUrl(rows: seq<Row>, p: Payload) {
    UrlKey(p.url) != "" && exists r :: r in rows && UrlKey(r.url) == UrlKey(p.url)
  }

  predicate OneIdentity(rows: seq<Row>) {
    rows != [] && forall r, s :: r in rows && s in rows ==> UrlKey(r.url) == UrlKey(s.url)
  }

  /** The name is that of one listing. */
  predicate NamesOne(rows: seq<Row>, p: Payload) {
    AddressKey(p.address) != "" && OneIdentity(Candidates(rows, p))
  }

  /** The name is that of listings with different URLs. */
  predicate NamesSeveral(rows: seq<Row>, p: Payload) {
    AddressKey(p.address) != ""
    && exists r, s :: r in Candidates(rows, p) && s in Candidates(rows, p) && UrlKey(r.url) != UrlKey(s.url)
  }

  /** The session or the registry binds the payload: by its URL, or by the name of one listing. */
  predicate Singular(rows: seq<Row>, p: Payload) { HoldsUrl(rows, p) || NamesOne(rows, p) }

  /** It cannot tell which of several listings is meant. */
  predicate Split(rows: seq<Row>, p: Payload) { !HoldsUrl(rows, p) && NamesSeveral(rows, p) }

  lemma {:induction false} HitExact(rows: seq<Row>, p: Payload)
    ensures Hit(rows, p).0.Some? <==> Singular(rows, p)
    ensures Hit(rows, p).1 <==> Split(rows, p)
  {
    hide UrlKey, AddressKey, PriceKey, Narrowed, MatchByAddress;
    FirstAtUrlExact(rows, UrlKey(p.url));
    NameExact(rows, p);
  }

  lemma {:induction false} NameExact(rows: seq<Row>, p: Payload)
    ensures var (hit, ambiguous) := MatchByAddress(rows, AddressKey(p.address), UrlKey(p.url), PriceKey(p.price));
            (hit.Some? <==> NamesOne(rows, p)) && (ambiguous <==> NamesSeveral(rows, p))
  {
    hide UrlKey, AddressKey, PriceKey, Narrowed;
    if AddressKey(p.address) != "" {
      MatchExact(rows, AddressKey(p.address), UrlKey(p.url), PriceKey(p.price));
    }
  }

  /* --- when a resolution binds --- */

  /** Which source binds, and when none does. */
  lemma {:induction false} ResolveExact(p: Payload, session: seq<Row>, csv: seq<Row>, registry: seq<Row>, cache: Option<Cache>)
    ensures var r := Resolve(p, session, csv, registry, cache);
            && (r.source == Session <==> Singular(session, p))
            && (r.source in {Registry, RegistryAndCache} <==> !Singular(session, p) && Singular(registry, p))
            && (r.source == Csv <==> !Singular(session, p) && !Singular(registry, p) && NamesOne(csv, p))
            && (r.url.Some? <==> Singular(session, p) || Singular(registry, p) || NamesOne(csv, p))
            && (r.source == Ambiguous <==>
                  r.url.None? && (Split(session, p) || Split(registry, p) || NamesSeveral(csv, p)))
  {
    hide Singular, Split, NamesOne, NamesSeveral, Hit, MatchByAddress, UrlKey, AddressKey, PriceKey;
    HitExact(session, p);
    HitExact(registry, p);
    NameExact(csv, p);
  }

  /** A listing is bound although a source asked before could not tell which of several is meant. */
  predicate Guesses(p: Payload, session: seq<Row>, csv: seq<Row>, registry: seq<Row>, cache: Option<Cache>) {
    var source := Resolve(p, session, csv, registry, cache).source;
    (source in {Registry, RegistryAndCache, Csv} && Split(session, p)) || (source == Csv && Split(registry, p))
  }

  /** A name that one source finds ambiguous is bound by a later one if and only if that one holds the payload's URL or
      knows one listing of the name, and no source in between settled it. */
  lemma {:induction false} GuessesExactly(p: Payload, session: seq<Row>, csv: seq<Row>, registry: seq<Row>, cache: Option<Cache>)
    ensures Guesses(p, session, csv, registry, cache) <==>
            || (Split(session, p) && (Singular(registry, p) || NamesOne(csv, p)))
            || (!Singular(session, p) && Split(registry, p) && NamesOne(csv, p))
  {
    hide HoldsUrl, NamesOne, NamesSeveral, Resolve;
    ResolveExact(p, session, csv, registry, cache);
    SplitIsNotSingular(session, p);
    SplitIsNotSingular(registry, p);
  }

  lemma SplitIsNotSingular(rows: seq<Row>, p: Payload)
    ensures !(Split(rows, p) && Singular(rows, p))
  {
    hide Narrowed;
  }

  /** It happens: two listings of one name in the session, one of them in the registry, and the card names neither. */
  lemma AmbiguousNameBound()
    ensures var x, y := Row("a", "u", None, ""), Row("a", "v", None, "");
            var p := Payload("a", "", None);
            && Hit([x, y], p) == (None, true)
            && Resolve(p, [x, y], [], [x], None).source == Registry
            && Guesses(p, [x, y], [], [x], None)
  {
    var x, y := Row("a", "u", None, ""), Row("a", "v", None, "");
    var p := Payload("a", "", None);
    EmptyKey();
    ShortKeys();
    hide UrlKey, AddressKey;
    FilterOne(x, AtAddress("a"));
    FilterAppend([x], y, AtAddress("a"));
    assert [x] + [y] == [x, y];
    assert x in [x, y] && y in [x, y];
    assert Candidates([x, y], p) == [x, y] && Candidates([x], p) == [x];
    HitExact([x, y], p);
    HitExact([x], p);
    GuessesExactly(p, [x, y], [], [x], None);
  }

  lemma EmptyKey()
    ensures UrlKey("") == ""
  {
    assert Lower("") == "";
  }

  lemma ShortKeys()
    ensures AddressKey("a") == "a" && UrlKey("u") == "u" && UrlKey("v") == "v" && UrlKey(" ") == ""
    ensures AddressKey("") == ""
  {
    assert StripLeft("a") == "a" && StripRight("a") == "a" && Lower("a") == "a";
    assert StripLeft("u") == "u" && StripRight("u") == "u" && Lower("u") == "u" && StripSlashes("u") == "u";
    assert StripLeft("v") == "v" && StripRight("v") == "v" && Lower("v") == "v" && StripSlashes("v") == "v";
    assert " "[1..] == "" && StripLeft("") == "" && StripLeft(" ") == "";
    assert Lower("") == "";
  }

  /** The identity a resolution gives: its source, and the normal form of the bound URL. */
  function IdentityOf(r: Resolved): (Source, Option<string>) {
    (r.source, if r.url.Some? then Some(UrlKey(r.url.value)) else None)
  }

  /** What the cache makes of a URL: whether it is known, and under which identity. */
  function Cached(cache: Option<Cache>, url: string): (bool, string) {
    var full := if cache.Some? && url != "" then cache.value(url) else None;
    (full.Some?, UrlKey(if full.Some? then Or(full.value.url, url) else url))
  }

  lemma {:induction false} RegistryIdentity(hit: Row, p: Payload, cache: Option<Cache>)
    ensures IdentityOf(FromRegistry(hit, p, cache)) ==
            (if Cached(cache, Or(hit.url, p.url)).0 then RegistryAndCache else Registry,
             Some(Cached(cache, Or(hit.url, p.url)).1))
  {
    hide UrlKey;
  }

  /* --- binding safety --- */

  /** The cache gives the listing that was asked for. */
  ghost predicate GivesWhatWasAsked(cache: Option<Cache>) {
    forall u :: Cached(cache, u).1 == UrlKey(u)
  }

  lemma {:induction false} HitFits(rows: seq<Row>, p: Payload)
    requires UrlKey(p.url) != ""
    ensures Hit(rows, p).0.Some? ==> UrlKey(Hit(rows, p).0.value.url) in {"", UrlKey(p.url)}
  {
    hide UrlKey, AddressKey, PriceKey;
    FirstAtUrlExact(rows, UrlKey(p.url));
    MatchFits(rows, AddressKey(p.address), UrlKey(p.url), PriceKey(p.price));
  }

  lemma {:induction false} MatchFits(rows: seq<Row>, addrKey: string, urlKey: string, priceKey: string)
    requires urlKey != ""
    ensures var hit := MatchByAddress(rows, addrKey, urlKey, priceKey).0;
            hit.Some? ==> UrlKey(hit.value.url) in {"", urlKey}
  {
    if addrKey != "" {
      hide UrlKey, AddressKey, PriceKey, Narrowed;
      MatchExact(rows, addrKey, urlKey, priceKey);
      NarrowedMembers(rows, addrKey, urlKey, priceKey);
    }
  }

  /** A payload with a URL is never bound to a listing with another URL. */
  lemma {:induction false} NeverAnotherUrl(p: Payload, session: seq<Row>, csv: seq<Row>, registry: seq<Row>,
                                           cache: Option<Cache>)
    requires UrlKey(p.url) != "" && GivesWhatWasAsked(cache)
    ensures var r := Resolve(p, session, csv, registry, cache);
            r.url.Some? ==> UrlKey(r.url.value) in {"", UrlKey(p.url)}
  {
    hide Hit, UrlKey, AddressKey, PriceKey, MatchByAddress, Cached, FromRegistry;
    HitFits(session, p);
    HitFits(registry, p);
    MatchFits(csv, AddressKey(p.address), UrlKey(p.url), PriceKey(p.price));
    if Hit(registry, p).0.Some? { RegistryIdentity(Hit(registry, p).0.value, p, cache); }
  }
}
