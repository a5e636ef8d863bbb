/** How the resolution of app/app.py depends on the order of the session, registry and CSV rows. What any reordering
    can give is exactly what the rows tied for the first place give; so each part of the result is free of order
    exactly when the tied rows agree on it. */
module ListingOrder {
  import opened Wrappers
  import opened ListingKeys
  import opened ListingIdentity
  import opened Sequences
  import R = RecommendedRegistry

  ghost predicate Permuted(a: seq<Row>, b: seq<Row>) {
    multiset(a) == multiset(b)
  }

  lemma {:induction false} NarrowedPermutes(a: seq<Row>, b: seq<Row>, addrKey: string, urlKey: string, priceKey: string)
    requires multiset(a) == multiset(b)
    ensures multiset(Narrowed(a, addrKey, urlKey, priceKey)) == multiset(Narrowed(b, addrKey, urlKey, priceKey))
  {
    var na, nb := Filter(a, AtAddress(addrKey)), Filter(b, AtAddress(addrKey));
    FilterPermutes(a, b, AtAddress(addrKey));
    FilterPermutes(na, nb, UrlFits(urlKey));
    var fa := if urlKey != "" then Filter(na, UrlFits(urlKey)) else na;
    var fb := if urlKey != "" then Filter(nb, UrlFits(urlKey)) else nb;
    FilterPermutes(fa, fb, AtPrice(priceKey));
    PermutedMembers(fa, fb);
    PermutedMembers(Filter(fa, AtPrice(priceKey)), Filter(fb, AtPrice(priceKey)));
  }

  function KeyOfHit(hit: Option<Row>): Option<string> {
    if hit.Some? then Some(UrlKey(hit.value.url)) else None
  }

  lemma {:induction false} MatchPermutes(a: seq<Row>, b: seq<Row>, addrKey: string, urlKey: string, priceKey: string)
    requires multiset(a) == multiset(b)
    ensures var (x, xa) := MatchByAddress(a, addrKey, urlKey, priceKey);
            var (y, ya) := MatchByAddress(b, addrKey, urlKey, priceKey);
            KeyOfHit(x) == KeyOfHit(y) && xa == ya
  {
    hide UrlKey, Narrowed;
    if addrKey != "" {
      NarrowedPermutes(a, b, addrKey, urlKey, priceKey);
      PermutedMembers(Narrowed(a, addrKey, urlKey, priceKey), Narrowed(b, addrKey, urlKey, priceKey));
      MatchExact(a, addrKey, urlKey, priceKey);
      MatchExact(b, addrKey, urlKey, priceKey);
    }
  }

  lemma {:induction false} HitPermutes(a: seq<Row>, b: seq<Row>, p: Payload)
    requires multiset(a) == multiset(b)
    ensures KeyOfHit(Hit(a, p).0) == KeyOfHit(Hit(b, p).0) && Hit(a, p).1 == Hit(b, p).1
  {
    hide UrlKey, AddressKey, PriceKey, MatchByAddress, FirstAtUrl;
    PermutedMembers(a, b);
    FirstAtUrlExact(a, UrlKey(p.url));
    FirstAtUrlExact(b, UrlKey(p.url));
    MatchPermutes(a, b, AddressKey(p.address), UrlKey(p.url), PriceKey(p.price));
  }

  /* --- the rows tied for the first place --- */

  function AtUrl(urlKey: string): Row -> bool { (r: Row) => UrlKey(r.url) == urlKey }

  function TiedByName(rows: seq<Row>, p: Payload): seq<Row> {
    if NamesOne(rows, p) then Candidates(rows, p) else []
  }

  /** The rows of a source of which it binds the first. */
  function Tied(rows: seq<Row>, p: Payload): seq<Row> {
    if HoldsUrl(rows, p) then Filter(rows, AtUrl(UrlKey(p.url))) else TiedByName(rows, p)
  }

  lemma {:induction false} FirstOfFilter(rows: seq<Row>, urlKey: string)
    ensures FirstAtUrl(rows, urlKey) ==
            (var all := Filter(rows, AtUrl(urlKey)); if all == [] then None else Some(all[0]))
  {
    hide UrlKey;
    if rows != [] { FirstOfFilter(rows[1..], urlKey); }
  }

  lemma {:induction false} NameTied(rows: seq<Row>, p: Payload)
    ensures MatchByAddress(rows, AddressKey(p.address), UrlKey(p.url), PriceKey(p.price)).0 ==
            (var tied := TiedByName(rows, p); if tied == [] then None else Some(tied[0]))
  {
    hide UrlKey, AddressKey, PriceKey, Narrowed, OneIdentity;
    NameExact(rows, p);
  }

  /** A source binds the first of its tied rows. */
  lemma {:induction false} HitTied(rows: seq<Row>, p: Payload)
    ensures Hit(rows, p).0 == (var tied := Tied(rows, p); if tied == [] then None else Some(tied[0]))
    ensures Tied(rows, p) != [] <==> Singular(rows, p)
  {
    hide UrlKey, AddressKey, PriceKey, TiedByName, MatchByAddress, NamesOne, FirstAtUrl;
    FirstOfFilter(rows, UrlKey(p.url));
    FirstAtUrlExact(rows, UrlKey(p.url));
    NameTied(rows, p);
    NameExact(rows, p);
  }

  lemma {:induction false} TiedPermutes(a: seq<Row>, b: seq<Row>, p: Payload)
    requires Permuted(a, b)
    ensures Permuted(TiedByName(a, p), TiedByName(b, p)) && Permuted(Tied(a, p), Tied(b, p))
    ensures NamesSeveral(a, p) == NamesSeveral(b, p) && HoldsUrl(a, p) == HoldsUrl(b, p)
  {
    hide UrlKey, AddressKey, PriceKey, Narrowed;
    PermutedMembers(a, b);
    NarrowedPermutes(a, b, AddressKey(p.address), UrlKey(p.url), PriceKey(p.price));
    PermutedMembers(Candidates(a, p), Candidates(b, p));
    FilterPermutes(a, b, AtUrl(UrlKey(p.url)));
  }

  /** Every tied row can be brought to the front. */
  lemma {:induction false} TiedFirst(rows: seq<Row>, p: Payload, r: Row) returns (b: seq<Row>)
    requires r in Tied(rows, p)
    ensures Permuted(rows, b) && Tied(b, p) != [] && Tied(b, p)[0] == r
  {
    hide UrlKey, AddressKey, PriceKey, Narrowed;
    TiedMembers(rows, p);
    b := ToFront(rows, r);
    TiedPermutes(rows, b, p);
    if HoldsUrl(rows, p) {
      FilterMembers(rows, AtUrl(UrlKey(p.url)));
      FrontStays(b, AtUrl(UrlKey(p.url)));
    } else {
      PermutedMembers(Tied(rows, p), Tied(b, p));
      NarrowedFront(rows, b, AddressKey(p.address), UrlKey(p.url), PriceKey(p.price));
    }
  }

  lemma {:induction false} NameTiedFirst(rows: seq<Row>, p: Payload, r: Row) returns (b: seq<Row>)
    requires r in TiedByName(rows, p)
    ensures Permuted(rows, b) && TiedByName(b, p) != [] && TiedByName(b, p)[0] == r
  {
    hide UrlKey, AddressKey, PriceKey, Narrowed;
    NarrowedMembers(rows, AddressKey(p.address), UrlKey(p.url), PriceKey(p.price));
    b := ToFront(rows, r);
    TiedPermutes(rows, b, p);
    PermutedMembers(TiedByName(rows, p), TiedByName(b, p));
    NarrowedFront(rows, b, AddressKey(p.address), UrlKey(p.url), PriceKey(p.price));
  }

  lemma {:induction false} TiedMembers(rows: seq<Row>, p: Payload)
    ensures forall r :: r in Tied(rows, p) ==> r in rows
    ensures forall r, s :: r in Tied(rows, p) && s in Tied(rows, p) ==> UrlKey(r.url) == UrlKey(s.url)
    ensures forall r :: r in Tied(rows, p) && UrlKey(r.url) == "" ==>
              AddressKey(r.address) == AddressKey(p.address) && AddressKey(p.address) != ""
  {
    hide UrlKey, AddressKey, PriceKey, Narrowed;
    FilterMembers(rows, AtUrl(UrlKey(p.url)));
    NarrowedMembers(rows, AddressKey(p.address), UrlKey(p.url), PriceKey(p.price));
  }

  lemma ToFront(rows: seq<Row>, r: Row) returns (b: seq<Row>)
    requires r in rows
    ensures Permuted(rows, b) && b != [] && b[0] == r
  {
    var i :| 0 <= i < |rows| && rows[i] == r;
    var front, back := rows[..i], rows[i + 1..];
    b := [r] + (front + back);
    assert rows == front + [r] + back;
    assert multiset(rows) == multiset(front + [r] + back) == multiset(front) + multiset{r} + multiset(back);
    assert multiset(b) == multiset{r} + multiset(front + back) == multiset{r} + (multiset(front) + multiset(back));
  }

  lemma FrontStays(rows: seq<Row>, f: Row -> bool)
    requires rows != [] && f(rows[0])
    ensures Filter(rows, f) != [] && Filter(rows, f)[0] == rows[0]
  {
  }

  /** A candidate in front of all rows is in front of the candidates. */
  lemma {:induction false} NarrowedFront(rows: seq<Row>, b: seq<Row>, addrKey: string, urlKey: string, priceKey: string)
    requires Permuted(rows, b) && b != [] && b[0] in Narrowed(rows, addrKey, urlKey, priceKey)
    ensures Narrowed(b, addrKey, urlKey, priceKey) != [] && Narrowed(b, addrKey, urlKey, priceKey)[0] == b[0]
  {
    hide UrlKey, AddressKey, PriceKey;
    var named, namedB := Filter(rows, AtAddress(addrKey)), Filter(b, AtAddress(addrKey));
    var fitting := if urlKey != "" then Filter(named, UrlFits(urlKey)) else named;
    var fittingB := if urlKey != "" then Filter(namedB, UrlFits(urlKey)) else namedB;
    FilterPermutes(rows, b, AtAddress(addrKey));
    FilterPermutes(named, namedB, UrlFits(urlKey));
    FilterPermutes(fitting, fittingB, AtPrice(priceKey));
    PermutedMembers(fitting, fittingB);
    PermutedMembers(Filter(fitting, AtPrice(priceKey)), Filter(fittingB, AtPrice(priceKey)));
    FilterMembers(rows, AtAddress(addrKey));
    FilterMembers(named, UrlFits(urlKey));
    FilterMembers(fitting, AtPrice(priceKey));
    FrontStays(b, AtAddress(addrKey));
    if urlKey != "" { FrontStays(namedB, UrlFits(urlKey)); }
    if AtPrice(priceKey)(b[0]) { FrontStays(fittingB, AtPrice(priceKey)); }
  }

  /* --- what reordering can give --- */

  /** Some order of the rows gives this resolution. */
  ghost predicate Possible(p: Payload, s: seq<Row>, c: seq<Row>, a: seq<Row>, cache: Option<Cache>, r: Resolved) {
    exists t, d, b :: Permuted(s, t) && Permuted(c, d) && Permuted(a, b) && r == Resolve(p, t, d, b, cache)
  }

  /** One of the rows tied in the source that binds gives this resolution. */
  ghost predicate FromTied(p: Payload, s: seq<Row>, c: seq<Row>, a: seq<Row>, cache: Option<Cache>, r: Resolved) {
    if Tied(s, p) != [] then exists h :: h in Tied(s, p) && r == FromSession(h, p)
    else if Tied(a, p) != [] then exists h :: h in Tied(a, p) && r == FromRegistry(h, p, cache)
    else if TiedByName(c, p) != [] then exists h :: h in TiedByName(c, p) && r == FromCsv(h, p)
    else r == Unbound(p, Split(s, p) || Split(a, p) || NamesSeveral(c, p))
  }

  /** A resolution by the first of the tied rows. */
  lemma {:induction false} ResolveTied(p: Payload, s: seq<Row>, c: seq<Row>, a: seq<Row>, cache: Option<Cache>)
    ensures Resolve(p, s, c, a, cache) ==
            if Tied(s, p) != [] then FromSession(Tied(s, p)[0], p)
            else if Tied(a, p) != [] then FromRegistry(Tied(a, p)[0], p, cache)
            else if TiedByName(c, p) != [] then FromCsv(TiedByName(c, p)[0], p)
            else Unbound(p, Split(s, p) || Split(a, p) || NamesSeveral(c, p))
  {
    hide Hit, Tied, TiedByName, MatchByAddress, UrlKey, AddressKey, PriceKey, Split, NamesSeveral, NamesOne, Singular,
      FromRegistry;
    HitTied(s, p);
    HitTied(a, p);
    NameTied(c, p);
    HitExact(s, p);
    HitExact(a, p);
    NameExact(c, p);
  }

  lemma {:induction false} EachOrderTied(p: Payload, s: seq<Row>, c: seq<Row>, a: seq<Row>, cache: Option<Cache>,
                                         t: seq<Row>, d: seq<Row>, b: seq<Row>)
    requires Permuted(s, t) && Permuted(c, d) && Permuted(a, b)
    ensures FromTied(p, s, c, a, cache, Resolve(p, t, d, b, cache))
  {
    hide Tied, TiedByName, Resolve, FromSession, FromRegistry, FromCsv, HoldsUrl, NamesSeveral;
    ResolveTied(p, t, d, b, cache);
    TiedPermutes(s, t, p);
    TiedPermutes(a, b, p);
    TiedPermutes(c, d, p);
    PermutedMembers(Tied(s, p), Tied(t, p));
    PermutedMembers(Tied(a, p), Tied(b, p));
    PermutedMembers(TiedByName(c, p), TiedByName(d, p));
  }

  /** What the orders of the rows can give is exactly what the tied rows give. */
  lemma {:induction false} PossibleExact(p: Payload, s: seq<Row>, c: seq<Row>, a: seq<Row>, cache: Option<Cache>, r: Resolved)
    ensures Possible(p, s, c, a, cache, r) <==> FromTied(p, s, c, a, cache, r)
  {
    hide Tied, TiedByName, Resolve, FromSession, FromRegistry, FromCsv, Permuted, Split, NamesSeveral;
    if Possible(p, s, c, a, cache, r) {
      var t, d, b :| Permuted(s, t) && Permuted(c, d) && Permuted(a, b) && r == Resolve(p, t, d, b, cache);
      EachOrderTied(p, s, c, a, cache, t, d, b);
    }
    if FromTied(p, s, c, a, cache, r) {
      var t, d, b := s, c, a;
      PermutedSelf(s);
      PermutedSelf(c);
      PermutedSelf(a);
      if Tied(s, p) != [] {
        var h :| h in Tied(s, p) && r == FromSession(h, p);
        t := TiedFirst(s, p, h);
      } else if Tied(a, p) != [] {
        var h :| h in Tied(a, p) && r == FromRegistry(h, p, cache);
        b := TiedFirst(a, p, h);
      } else if TiedByName(c, p) != [] {
        var h :| h in TiedByName(c, p) && r == FromCsv(h, p);
        d := NameTiedFirst(c, p, h);
      }
      ResolveTied(p, t, d, b, cache);
    }
  }

  lemma PermutedSelf(a: seq<Row>)
    ensures Permuted(a, a)
  {
  }

  /** A part of the resolution is the same for every order of the rows. */
  ghost predicate OrderFree<T>(p: Payload, s: seq<Row>, c: seq<Row>, a: seq<Row>, cache: Option<Cache>, part: Resolved -> T) {
    forall t, d, b :: Permuted(s, t) && Permuted(c, d) && Permuted(a, b) ==>
      part(Resolve(p, t, d, b, cache)) == part(Resolve(p, s, c, a, cache))
  }

  /** Any part of the resolution is free of order if and only if the tied rows agree on it. */
  lemma {:induction false} OrderFreeExact<T>(p: Payload, s: seq<Row>, c: seq<Row>, a: seq<Row>, cache: Option<Cache>,
                                             part: Resolved -> T)
    ensures OrderFree(p, s, c, a, cache, part) <==>
            forall x, y :: FromTied(p, s, c, a, cache, x) && FromTied(p, s, c, a, cache, y) ==> part(x) == part(y)
  {
    hide Resolve, Permuted, FromTied;
    PermutedSelf(s);
    PermutedSelf(c);
    PermutedSelf(a);
    forall r { PossibleExact(p, s, c, a, cache, r); }
    assert FromTied(p, s, c, a, cache, Resolve(p, s, c, a, cache));
    forall t, d, b | Permuted(s, t) && Permuted(c, d) && Permuted(a, b)
      ensures FromTied(p, s, c, a, cache, Resolve(p, t, d, b, cache))
    {
      assert Possible(p, s, c, a, cache, Resolve(p, t, d, b, cache));
    }
  }

  /* --- price and identity --- */

  function PriceOf(r: Resolved): Option<string> { r.price }

  function PriceFrom(h: Row, p: Payload): Option<string> { if h.price.Some? then h.price else p.price }

  /** The bound price is free of order if and only if the rows tied in the session agree on their price or, without
      such rows, those tied in the registry agree on the price they and the cache give. */
  lemma {:induction false} PriceOrderExact(p: Payload, s: seq<Row>, c: seq<Row>, a: seq<Row>, cache: Option<Cache>)
    ensures OrderFree(p, s, c, a, cache, PriceOf) <==>
            if Tied(s, p) != [] then
              forall g, h :: g in Tied(s, p) && h in Tied(s, p) ==> PriceFrom(g, p) == PriceFrom(h, p)
            else
              forall g, h :: g in Tied(a, p) && h in Tied(a, p) ==>
                FromRegistry(g, p, cache).price == FromRegistry(h, p, cache).price
  {
    hide Tied, TiedByName, Resolve, FromRegistry, OrderFree;
    OrderFreeExact(p, s, c, a, cache, PriceOf);
    if Tied(s, p) != [] {
      forall h | h in Tied(s, p)
        ensures FromTied(p, s, c, a, cache, FromSession(h, p)) && PriceOf(FromSession(h, p)) == PriceFrom(h, p) {}
    } else {
      forall h | h in Tied(a, p) ensures FromTied(p, s, c, a, cache, FromRegistry(h, p, cache)) {}
    }
  }

  /** Source and URL identity are free of order if and only if the session binds, or the cache makes the same of all
      rows tied in the registry. */
  lemma {:induction false} IdentityOrderExact(p: Payload, s: seq<Row>, c: seq<Row>, a: seq<Row>, cache: Option<Cache>)
    ensures OrderFree(p, s, c, a, cache, IdentityOf) <==>
            || Tied(s, p) != []
            || forall g, h :: g in Tied(a, p) && h in Tied(a, p) ==>
                 Cached(cache, Or(g.url, p.url)) == Cached(cache, Or(h.url, p.url))
  {
    hide Tied, TiedByName, Resolve, FromRegistry, OrderFree, UrlKey, Cached;
    OrderFreeExact(p, s, c, a, cache, IdentityOf);
    forall h { RegistryIdentity(h, p, cache); }
    TiedMembers(s, p);
    NameTiedMembers(c, p);
    if Tied(s, p) == [] {
      forall h | h in Tied(a, p) ensures FromTied(p, s, c, a, cache, FromRegistry(h, p, cache)) {}
    }
  }

  lemma NameTiedMembers(rows: seq<Row>, p: Payload)
    ensures forall r, s :: r in TiedByName(rows, p) && s in TiedByName(rows, p) ==> UrlKey(r.url) == UrlKey(s.url)
  {
    hide UrlKey, AddressKey, Candidates;
  }

  /* --- which registries are free of order --- */

  /** Two entries that can tie: of one URL identity or, without one, of one name. */
  predicate Rivals(r: Row, s: Row) {
    UrlKey(r.url) == UrlKey(s.url)
    && (UrlKey(r.url) != "" || (AddressKey(r.address) == AddressKey(s.address) && AddressKey(r.address) != ""))
  }

  /** Entries that can tie spell their URL alike. */
  predicate OneSpelling(a: seq<Row>) {
    forall r, s :: r in a && s in a && Rivals(r, s) ==> r.url == s.url
  }

  /** The identity of a listing resolved through this registry never depends on the order of rows, whatever the
      payload, the session, the CSV rows and the cache. */
  ghost predicate AlwaysOrderFree(a: seq<Row>) {
    forall p, s, c, cache :: OrderFree(p, s, c, a, cache, IdentityOf)
  }

  /** A registry is always free of order if and only if its entries that can tie spell their URL alike. */
  lemma {:induction false} RegistryOrderExact(a: seq<Row>)
    ensures AlwaysOrderFree(a) <==> OneSpelling(a)
  {
    hide OrderFree, Rivals;
    if OneSpelling(a) {
      forall p, s, c, cache ensures OrderFree(p, s, c, a, cache, IdentityOf) {
        OneSpellingFree(a, p, s, c, cache);
      }
    } else {
      var r, s :| r in a && s in a && Rivals(r, s) && r.url != s.url;
      if r.url != "" { SpellingsShow(a, r, s); } else { RivalsSymmetric(r, s); SpellingsShow(a, s, r); }
    }
  }

  lemma RivalsSymmetric(r: Row, s: Row)
    ensures Rivals(r, s) <==> Rivals(s, r)
  {
    hide UrlKey, AddressKey;
  }

  lemma {:induction false} OneSpellingFree(a: seq<Row>, p: Payload, s: seq<Row>, c: seq<Row>, cache: Option<Cache>)
    requires OneSpelling(a)
    ensures OrderFree(p, s, c, a, cache, IdentityOf)
  {
    hide OrderFree, Tied, UrlKey, AddressKey, Cached;
    IdentityOrderExact(p, s, c, a, cache);
    TiedMembers(a, p);
    forall g, h | g in Tied(a, p) && h in Tied(a, p) ensures g.url == h.url {
      assert Rivals(g, h);
    }
  }

  function KnowsOnly(url: string): string -> Option<Row> {
    u => if u == url then Some(Row("", url, None, "")) else None
  }

  /** A payload that ties two rivals. */
  lemma {:induction false} RivalsTied(a: seq<Row>, r: Row, s: Row) returns (p: Payload)
    requires r in a && s in a && Rivals(r, s)
    ensures r in Tied(a, p) && s in Tied(a, p) && (UrlKey(r.url) == "" ==> p.url !in {r.url, s.url})
  {
    hide UrlKey, AddressKey, PriceKey, Narrowed;
    if UrlKey(r.url) != "" {
      p := Payload("", r.url, None);
      FilterMembers(a, AtUrl(UrlKey(p.url)));
      assert HoldsUrl(a, p);
    } else {
      var u := NewUrl(a);
      p := Payload(r.address, u, None);
      NewUrlTies(a, r, u);
      NewUrlTies(a, s, u);
    }
  }

  lemma {:induction false} NewUrlTies(a: seq<Row>, r: Row, u: string)
    requires r in a && UrlKey(r.url) == "" && AddressKey(r.address) != ""
    requires UrlKey(u) != "" && forall x :: x in a ==> UrlKey(x.url) != UrlKey(u)
    ensures forall q :: AddressKey(q) == AddressKey(r.address) ==> r in Tied(a, Payload(q, u, None))
  {
    hide UrlKey, AddressKey;
    assert PriceKey(None) == "";
    forall q | AddressKey(q) == AddressKey(r.address) ensures r in Tied(a, Payload(q, u, None)) {
      var p := Payload(q, u, None);
      var named := Filter(a, AtAddress(AddressKey(q)));
      FilterMembers(a, AtAddress(AddressKey(q)));
      FilterMembers(named, UrlFits(UrlKey(u)));
      assert Candidates(a, p) == Filter(named, UrlFits(UrlKey(u)));
      assert forall x :: x in Candidates(a, p) ==> UrlKey(x.url) == "";
      assert r in Candidates(a, p);
    }
  }

  /* --- a URL no row has --- */

  function Us(n: nat): string { if n == 0 then "" else Us(n - 1) + "u" }

  lemma {:induction false} UsPlain(n: nat)
    ensures |Us(n)| == n && forall i :: 0 <= i < n ==> Us(n)[i] == 'u'
  {
    if n > 0 { UsPlain(n - 1); }
  }

  lemma PlainKey(u: string)
    requires u != "" && forall i :: 0 <= i < |u| ==> u[i] == 'u'
    ensures UrlKey(u) == u
  {
    assert StripLeft(u) == u && StripRight(u) == u;
    assert Lower(u) == u;
  }

  function Longest(a: seq<Row>): (n: nat)
    ensures forall r :: r in a ==> |UrlKey(r.url)| <= n
  {
    if a == [] then 0
    else
      assert a == [a[0]] + a[1..];
      var n := Longest(a[1..]);
      if |UrlKey(a[0].url)| > n then |UrlKey(a[0].url)| else n
  }

  lemma NewUrl(a: seq<Row>) returns (u: string)
    ensures UrlKey(u) == u && u != "" && forall r :: r in a ==> UrlKey(r.url) != UrlKey(u)
  {
    hide UrlKey;
    u := Us(Longest(a) + 1);
    UsPlain(Longest(a) + 1);
    PlainKey(u);
  }

  lemma {:induction false} SpellingsShow(a: seq<Row>, r: Row, s: Row)
    requires r in a && s in a && Rivals(r, s) && r.url != s.url && r.url != ""
    ensures !AlwaysOrderFree(a)
  {
    hide OrderFree, Tied, UrlKey, AddressKey, Rivals;
    var p := RivalsTied(a, r, s);
    var cache := Some(KnowsOnly(r.url));
    EmptyKey();
    assert s.url == "" ==> UrlKey(r.url) == "" by { RivalKeys(r, s); }
    assert Or(r.url, p.url) == r.url && Or(s.url, p.url) != r.url;
    assert Cached(cache, r.url).0 && !Cached(cache, Or(s.url, p.url)).0;
    NoneTied(p);
    IdentityOrderExact(p, [], [], a, cache);
  }

  lemma RivalKeys(r: Row, s: Row)
    requires Rivals(r, s)
    ensures UrlKey(r.url) == UrlKey(s.url)
  {
  }

  lemma NoneTied(p: Payload)
    ensures Tied([], p) == []
  {
    hide UrlKey, AddressKey, PriceKey;
  }

  /* --- registries that merging has built --- */

  function AsRow(e: R.Entry): Row { Row(e.address, e.url, e.price, e.rest) }

  function AsRows(reg: seq<R.Entry>): seq<Row> {
    seq(|reg|, i requires 0 <= i < |reg| => AsRow(reg[i]))
  }

  /** No URL consists of blanks or slashes only. */
  predicate NoBlankUrl(recs: seq<R.Recommendation>) {
    forall r :: r in recs && UrlKey(r.url) == "" ==> r.url == ""
  }

  /** Entries of one name without a URL identity have the same blank URL. */
  predicate BlanksAgree(rows: seq<Row>) {
    forall r, s | r in rows && s in rows && UrlKey(r.url) == UrlKey(s.url) == "" ::
      AddressKey(r.address) == AddressKey(s.address) != "" ==> r.url == s.url
  }

  /** A registry built from nothing by any merges lets the order of rows decide some listing's identity if and only if
      it has two entries of one name with different blank URLs; two spellings of one URL it never has. */
  lemma {:induction false} MergedRegistryExact(recs: seq<R.Recommendation>, cap: nat)
    ensures var rows := AsRows(R.Merge([], recs, cap)); AlwaysOrderFree(rows) <==> BlanksAgree(rows)
  {
    var rows := AsRows(R.Merge([], recs, cap));
    RegistryOrderExact(rows);
    hide AlwaysOrderFree, UrlKey, AddressKey;
    if BlanksAgree(rows) {
      forall r, s | r in rows && s in rows && Rivals(r, s) && r != s ensures UrlKey(r.url) == "" {
        var i :| 0 <= i < |rows| && rows[i] == r;
        var j :| 0 <= j < |rows| && rows[j] == s;
        if i < j { MergedApart(recs, cap, i, j); } else { RivalsSymmetric(r, s); MergedApart(recs, cap, j, i); }
      }
    }
  }

  /** So no order matters, whatever the cache does, when no recommended URL is blank. */
  lemma {:induction false} MergedRegistryOrderFree(recs: seq<R.Recommendation>, cap: nat)
    requires NoBlankUrl(recs)
    ensures AlwaysOrderFree(AsRows(R.Merge([], recs, cap)))
  {
    hide AlwaysOrderFree, UrlKey, AddressKey, R.Merge;
    var rows := AsRows(R.Merge([], recs, cap));
    forall r | r in rows && UrlKey(r.url) == "" ensures r.url == "" {
      var i :| 0 <= i < |rows| && rows[i] == r;
      MergedFrom(recs, cap, i);
    }
    MergedRegistryExact(recs, cap);
  }

  lemma {:induction false} MergedFrom(recs: seq<R.Recommendation>, cap: nat, i: nat)
    requires i < |R.Merge([], recs, cap)|
    ensures exists x :: x in recs && R.Merge([], recs, cap)[i].url == x.url
  {
    hide UrlKey, AddressKey, PriceKey, R.Merge, R.Keys, R.MaxIndex;
    var reg := R.Merge([], recs, cap);
    R.MergeShape([], recs, cap);
    assert R.FreshTail(reg, 0, recs);
    var x :| x in recs && x.status.Included? && reg[i] == R.NewEntry(R.MaxIndex(reg[..i]) + 1, x);
  }

  /** Two different merged entries that can tie have no URL identity. */
  lemma {:induction false} MergedApart(recs: seq<R.Recommendation>, cap: nat, i: nat, j: nat)
    requires i < j < |R.Merge([], recs, cap)|
    requires Rivals(AsRow(R.Merge([], recs, cap)[i]), AsRow(R.Merge([], recs, cap)[j]))
    ensures UrlKey(R.Merge([], recs, cap)[i].url) == ""
  {
    hide UrlKey, AddressKey, PriceKey, R.Merge, R.Keys, R.MaxIndex;
    var reg := R.Merge([], recs, cap);
    R.MergeShape([], recs, cap);
    assert reg[..j][i] == reg[i];
    if R.KeyOf(reg[i]).Some? { KeyListed(reg[..j], i); }
  }

  lemma {:induction false} KeyListed(reg: seq<R.Entry>, k: nat)
    requires k < |reg| && R.KeyOf(reg[k]).Some?
    ensures R.KeyOf(reg[k]).value in R.Keys(reg)
  {
    hide R.EntryKey;
    if k < |reg| - 1 { KeyListed(reg[..|reg| - 1], k); }
  }

  /* --- which caches are free of order --- */

  /** The cache treats two spellings of one URL alike. */
  ghost predicate Respects(cache: Option<Cache>) {
    forall u, v :: UrlKey(u) != "" && UrlKey(u) == UrlKey(v) ==> Cached(cache, u) == Cached(cache, v)
  }

  /** A row without an identity has no URL at all, rather than blanks or slashes. */
  predicate Tidy(rows: seq<Row>) {
    forall r :: r in rows && UrlKey(r.url) == "" ==> r.url == ""
  }

  /** With this cache, no order of rows matters to a listing's identity as long as the registry has no blank URL. */
  ghost predicate TidyOrderFree(cache: Option<Cache>) {
    forall p, s, c, a :: Tidy(a) ==> OrderFree(p, s, c, a, cache, IdentityOf)
  }

  /** Over all registries without blank URLs, two spellings of one URL included, order never matters if and only if
      the cache treats spellings of one URL alike. */
  lemma {:induction false} CacheOrderExact(cache: Option<Cache>)
    ensures TidyOrderFree(cache) <==> Respects(cache)
  {
    hide OrderFree;
    if Respects(cache) {
      forall p, s, c, a | Tidy(a) ensures OrderFree(p, s, c, a, cache, IdentityOf) {
        RespectfulFree(p, s, c, a, cache);
      }
    } else {
      var u, v :| UrlKey(u) != "" && UrlKey(u) == UrlKey(v) && Cached(cache, u) != Cached(cache, v);
      SpellingShows(u, v, cache);
    }
  }

  lemma {:induction false} RespectfulFree(p: Payload, s: seq<Row>, c: seq<Row>, a: seq<Row>, cache: Option<Cache>)
    requires Respects(cache) && Tidy(a)
    ensures OrderFree(p, s, c, a, cache, IdentityOf)
  {
    hide OrderFree, Tied, UrlKey, AddressKey, Cached;
    IdentityOrderExact(p, s, c, a, cache);
    TiedMembers(a, p);
    EmptyKey();
    forall g, h | g in Tied(a, p) && h in Tied(a, p)
      ensures Cached(cache, Or(g.url, p.url)) == Cached(cache, Or(h.url, p.url)) {}
  }

  lemma {:induction false} SpellingShows(u: string, v: string, cache: Option<Cache>)
    requires UrlKey(u) != "" && UrlKey(u) == UrlKey(v) && Cached(cache, u) != Cached(cache, v)
    ensures !TidyOrderFree(cache)
  {
    hide UrlKey, Cached, OrderFree, Tied;
    EmptyKey();
    var x, y := Row("", u, None, ""), Row("", v, None, "");
    var p := Payload("", u, None);
    assert x in [x, y] && y in [x, y] && Tidy([x, y]);
    NoneTied(p);
    UrlTied([x, y], p);
    IdentityOrderExact(p, [], [], [x, y], cache);
  }

  lemma UrlTied(rows: seq<Row>, p: Payload)
    requires HoldsUrl(rows, p)
    ensures forall r :: r in Tied(rows, p) <==> r in rows && UrlKey(r.url) == UrlKey(p.url)
  {
    hide UrlKey;
    FilterMembers(rows, AtUrl(UrlKey(p.url)));
  }

  /* --- two rows that do not agree --- */

  /** Two rows of one name without a URL. */
  lemma {:induction false} PairTied(x: Row, y: Row, p: Payload)
    requires x.address == y.address == p.address == "a" && UrlKey(x.url) == UrlKey(y.url) == "" && p.price.None?
    ensures forall r :: r in Tied([x, y], p) <==> r == x || r == y
  {
    hide UrlKey, AddressKey;
    ShortKeys();
    FilterOne(x, AtAddress("a"));
    FilterAppend([x], y, AtAddress("a"));
    FilterOne(x, UrlFits(UrlKey(p.url)));
    FilterAppend([x], y, UrlFits(UrlKey(p.url)));
    assert [x] + [y] == [x, y];
    assert x in [x, y] && y in [x, y] && forall r :: r in [x, y] <==> r == x || r == y;
    assert Candidates([x, y], p) == [x, y];
  }

  /** They disagree on the price: the bound price depends on which comes first. */
  lemma {:induction false} BoundPriceDependsOnOrder()
    ensures var x, y := Row("a", "", Some("1"), ""), Row("a", "", Some("2"), "");
            !OrderFree(Payload("a", "", None), [x, y], [], [], None, PriceOf)
  {
    hide OrderFree, Tied;
    var x, y := Row("a", "", Some("1"), ""), Row("a", "", Some("2"), "");
    EmptyKey();
    PairTied(x, y, Payload("a", "", None));
    PriceOrderExact(Payload("a", "", None), [x, y], [], [], None);
    assert PriceFrom(x, Payload("a", "", None)) != PriceFrom(y, Payload("a", "", None)) by { assert "1"[0] != "2"[0]; }
    assert x in Tied([x, y], Payload("a", "", None));
  }

  lemma FirstMerged(x: R.Recommendation)
    requires x.status.Included? && R.KeyOfRec(x).Some?
    ensures R.Merge([], [x], 200) == [R.NewEntry(1, x)]
    ensures R.Keys([R.NewEntry(1, x)]) == {R.KeyOfRec(x).value} && R.MaxIndex([R.NewEntry(1, x)]) == 1
  {
    hide R.EntryKey;
    var none: seq<R.Entry> := [];
    assert [x][..0] == [] && R.Merge(none, [x][..0], 200) == none;
    assert none + [R.NewEntry(1, x)] == [R.NewEntry(1, x)];
    R.AppendEntry(none, R.NewEntry(1, x));
  }

  /** A first merge of two recommendations takes up both if neither has the other's key. */
  lemma {:induction false} TwoMerged(x: R.Recommendation, y: R.Recommendation)
    requires x.status.Included? && y.status.Included?
    requires R.KeyOfRec(x).Some? && R.KeyOfRec(y).Some? && R.KeyOfRec(x) != R.KeyOfRec(y)
    ensures R.Merge([], [x, y], 200) == [R.NewEntry(1, x), R.NewEntry(2, y)]
  {
    FirstMerged(x);
    R.MergeNext([], [x, y], 1, 200);
    hide R.Merge, R.Keys, R.MaxIndex, R.EntryKey;
    assert [x, y][..1] == [x] && [x, y][..2] == [x, y];
    assert [R.NewEntry(1, x)] + [R.NewEntry(2, y)] == [R.NewEntry(1, x), R.NewEntry(2, y)];
  }

  /** Two recommendations of one name, one without a URL and one with a blank one, at different prices: the merge
      keeps both, and the bound URL of a payload that brings its own depends on which comes first. */
  lemma {:induction false} BlankUrlDependsOnOrder()
    ensures var x := R.Recommendation("a", Some("1"), "", "", R.Included);
            var y := R.Recommendation("a", Some("2"), " ", "", R.Included);
            var registry := AsRows(R.Merge([], [x, y], 200));
            && registry == [Row("a", "", Some("1"), ""), Row("a", " ", Some("2"), "")]
            && !OrderFree(Payload("a", "u", None), [], [], registry, None, IdentityOf)
            && !AlwaysOrderFree(registry)
  {
    hide OrderFree, Tied, R.Merge;
    var x := R.Recommendation("a", Some("1"), "", "", R.Included);
    var y := R.Recommendation("a", Some("2"), " ", "", R.Included);
    var r, s := Row("a", "", Some("1"), ""), Row("a", " ", Some("2"), "");
    var p := Payload("a", "u", None);
    EmptyKey();
    ShortKeys();
    PriceKeysDiffer();
    TwoMerged(x, y);
    assert AsRows(R.Merge([], [x, y], 200)) == [r, s];
    PairTied(r, s, p);
    NoneTied(p);
    IdentityOrderExact(p, [], [], [r, s], None);
    assert Cached(None, Or(r.url, p.url)) != Cached(None, Or(s.url, p.url));
    assert r in Tied([r, s], p) && s in Tied([r, s], p);
  }

  lemma PriceKeysDiffer()
    ensures PriceKey(Some("1")) != PriceKey(Some("2"))
  {
    assert "1"[1..] == "" && "2"[1..] == "";
    assert Digits("1") == ['1'] && Digits("2") == ['2'];
  }
}
