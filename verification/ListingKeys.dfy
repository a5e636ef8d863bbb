/** Normal forms of listing fields in app/app.py. Letters are ASCII; an absent string is the empty one. */
module ListingKeys {
  import opened Wrappers
  import opened Texts

  predicate IsSpace(c: char) {
    c == ' ' || '\t' <= c <= '\r'
  }

  function LowerChar(c: char): char {
    if 'A' <= c <= 'Z' then (c as int + 32) as char else c
  }

  /** `.lower()` */
  function Lower(s: string): string {
    seq(|s|, i requires 0 <= i < |s| => LowerChar(s[i]))
  }

  function StripLeft(s: string): string {
    if s != "" && IsSpace(s[0]) then StripLeft(s[1..]) else s
  }

  function StripRight(s: string): string {
    if s != "" && IsSpace(s[|s| - 1]) then StripRight(s[..|s| - 1]) else s
  }

  function Strip(s: string): string { StripRight(StripLeft(s)) }

  /** `_listing_url_key`: the one identity of a listing. */
  function UrlKey(url: string): string { StripSlashes(Lower(Strip(url))) }

  function AddressKey(address: string): string { Lower(Strip(address)) }

  /** `_listing_price_key`: the digits of a price. */
  function PriceKey(price: Option<string>): string {
    if price.None? then "" else Digits(price.value)
  }

  function Digits(s: string): string {
    if s == "" then "" else (if '0' <= s[0] <= '9' then [s[0]] else "") + Digits(s[1..])
  }

  /* --- what the keys identify --- */

  /** The characters, letters from A to Z replaced by the small one 32 places later. */
  ghost predicate IsLowered(s: string, t: string) {
    && |s| == |t|
    && forall i | 0 <= i < |s| ::
         if 'A' as int <= s[i] as int <= 'Z' as int then t[i] as int == s[i] as int + 32 else t[i] == s[i]
  }

  /** Space, tab, newline, vertical tab, form feed and carriage return. */
  ghost predicate IsBlank(c: char) { c as int == 32 || 9 <= c as int <= 13 }

  ghost predicate AllSpaces(s: string) {
    forall i :: 0 <= i < |s| ==> IsBlank(s[i])
  }

  lemma {:induction false} StripLeftOf(pre: string, s: string)
    requires AllSpaces(pre) && (s != "" ==> !IsBlank(s[0]))
    ensures StripLeft(pre + s) == s
  {
    if pre == "" {
      assert pre + s == s;
    } else {
      assert (pre + s)[1..] == pre[1..] + s;
      StripLeftOf(pre[1..], s);
    }
  }

  lemma {:induction false} StripRightOf(s: string, post: string)
    requires AllSpaces(post) && (s != "" ==> !IsBlank(s[|s| - 1]))
    ensures StripRight(s + post) == s
  {
    if post == "" {
      assert s + post == s;
    } else {
      var t := s + post;
      assert t[|t| - 1] == post[|post| - 1] && t[..|t| - 1] == s + post[..|post| - 1];
      StripRightOf(s, post[..|post| - 1]);
    }
  }

  lemma {:induction false} SlashesStripped(s: string, n: nat)
    requires s != "" ==> s[|s| - 1] != '/'
    ensures StripSlashes(s + seq(n, _ => '/')) == s
  {
    var t := s + seq(n, _ => '/');
    if n == 0 {
      assert t == s;
    } else {
      assert t[|t| - 1] == '/' && t[..|t| - 1] == s + seq(n - 1, _ => '/');
      SlashesStripped(s, n - 1);
    }
  }

  lemma StripOf(pre: string, s: string, post: string)
    requires AllSpaces(pre) && AllSpaces(post)
    requires s != "" ==> !IsBlank(s[0]) && !IsBlank(s[|s| - 1])
    ensures Strip(pre + s + post) == s
  {
    if s == "" {
      assert AllSpaces(pre + s + post);
      StripLeftOf(pre + s + post, "");
      assert pre + s + post + "" == pre + s + post;
    } else {
      assert (s + post)[0] == s[0];
      StripLeftOf(pre, s + post);
      assert pre + (s + post) == pre + s + post;
      StripRightOf(s, post);
    }
  }

  lemma LowerExact(s: string, t: string)
    ensures Lower(s) == t <==> IsLowered(s, t)
  {
    var key := Lower(s);
    assert forall i :: 0 <= i < |s| ==> key[i] == LowerChar(s[i]);
  }

  /** A name is itself but for case and the spaces around it. */
  lemma {:induction false} AddressKeyExact(pre: string, core: string, post: string, key: string)
    requires AllSpaces(pre) && AllSpaces(post)
    requires core != "" ==> !IsBlank(core[0]) && !IsBlank(core[|core| - 1])
    ensures AddressKey(pre + core + post) == key <==> IsLowered(core, key)
  {
    StripOf(pre, core, post);
    LowerExact(core, key);
  }

  /** A URL is itself but for case, the spaces around it and the slashes at its end. */
  lemma {:induction false} UrlKeyExact(pre: string, core: string, slashes: nat, post: string, key: string)
    requires AllSpaces(pre) && AllSpaces(post)
    requires core != "" ==> !IsBlank(core[0]) && core[|core| - 1] != '/'
    requires slashes == 0 && core != "" ==> !IsBlank(core[|core| - 1])
    ensures UrlKey(pre + (core + seq(slashes, _ => '/')) + post) == key <==> IsLowered(core, key)
  {
    var url := core + seq(slashes, _ => '/');
    assert url != "" ==> url[0] == (if core != "" then core[0] else '/');
    assert url != "" ==> url[|url| - 1] == (if slashes == 0 then core[|core| - 1] else '/');
    StripOf(pre, url, post);
    LowerExact(core, Lower(core));
    assert Lower(url) == Lower(core) + seq(slashes, _ => '/');
    assert core != "" ==> Lower(core)[|core| - 1] != '/';
    SlashesStripped(Lower(core), slashes);
    LowerExact(core, key);
  }

  /** A price is its digits, in order. */
  lemma {:induction false} PriceKeyGrows(s: string, c: char)
    ensures PriceKey(None) == "" && PriceKey(Some("")) == ""
    ensures PriceKey(Some(s + [c])) == PriceKey(Some(s)) + if c in "0123456789" then [c] else ""
  {
    if s == "" {
      assert "" + [c] == [c] && [c][1..] == "";
    } else {
      assert (s + [c])[1..] == s[1..] + [c];
      PriceKeyGrows(s[1..], c);
    }
  }
}
