/**
 * The app part of Run.py: reading the bulk URL box, naming the bulk images and the
 * per-session cache of fetched listings shared by the single and the bulk mode.
 */
module App {
  import opened Wrappers
  import opened Sanitize
  import opened Scraper
  import opened Card

  // ------------------------------------------------------------ splitting

  /** The separators of the bulk box: newline and comma. */
  predicate IsSep(c: char) { c == '\n' || c == ',' }

  predicate NotSep(c: char) { !IsSep(c) }

  /** The separators of `s`, in order. */
  function Seps(s: string): string {
    if s == [] then [] else (if IsSep(s[0]) then [s[0]] else []) + Seps(s[1..])
  }

  /** The pieces of `[x] + t` from the pieces of `t`: a separator opens a new piece, any other character joins the first. */
  function Prepend(x: char, pieces: seq<string>): seq<string>
    requires |pieces| >= 1
  {
    if IsSep(x) then [""] + pieces else [[x] + pieces[0]] + pieces[1..]
  }

  /** `re.split(r"[\n,]", s)`: the pieces between separators, one more than there are separators. */
  function Split(s: string): (pieces: seq<string>)
    ensures |pieces| == |Seps(s)| + 1
  {
    if s == [] then [""] else Prepend(s[0], Split(s[1..]))
  }

  lemma PrependAppend(x: char, l: seq<string>, r: seq<string>)
    requires |l| >= 1
    ensures Prepend(x, l + r) == Prepend(x, l) + r
  {
    if !IsSep(x) {
      assert (l + r)[0] == l[0] && (l + r)[1..] == l[1..] + r;
    }
  }

  /** The pieces put back together with the separators between them. */
  function Rejoin(pieces: seq<string>, seps: string): string
    requires |pieces| == |seps| + 1
  {
    if seps == [] then pieces[0] else pieces[0] + [seps[0]] + Rejoin(pieces[1..], seps[1..])
  }

  /** Prefixing the first piece prefixes the joined text. */
  lemma RejoinPrefix(c: char, pieces: seq<string>, seps: string)
    requires |pieces| == |seps| + 1
    ensures Rejoin([[c] + pieces[0]] + pieces[1..], seps) == [c] + Rejoin(pieces, seps)
  {
    var p := [[c] + pieces[0]] + pieces[1..];
    assert p[1..] == pieces[1..];
  }

  /** Splitting loses nothing: rejoining the pieces with the separators found gives the text back. */
  lemma {:induction false} SplitRejoin(s: string)
    ensures Rejoin(Split(s), Seps(s)) == s
  {
    if s != [] {
      SplitRejoin(s[1..]);
      var rest, seps := Split(s[1..]), Seps(s[1..]);
      if IsSep(s[0]) {
        assert Split(s) == [""] + rest && Seps(s) == [s[0]] + seps;
        assert ([""] + rest)[1..] == rest;
        assert s == [s[0]] + s[1..];
      } else {
        assert Seps(s) == [] + seps == seps;
        assert Split(s) == [[s[0]] + rest[0]] + rest[1..];
        RejoinPrefix(s[0], rest, seps);
        assert s == [s[0]] + s[1..];
      }
    }
  }

  /** No piece contains a separator. */
  lemma {:induction false} SplitPiecesClean(s: string)
    ensures forall i :: 0 <= i < |Split(s)| ==> AllKept(Split(s)[i], NotSep)
  {
    if s != [] {
      SplitPiecesClean(s[1..]);
      var rest := Split(s[1..]);
      if !IsSep(s[0]) {
        var p := Split(s);
        assert p[0] == [s[0]] + rest[0];
        forall i | 0 <= i < |p| ensures AllKept(p[i], NotSep) {
          if i > 0 { assert p[i] == rest[i]; }
        }
      }
    }
  }

  /** A separator cuts the text into the pieces of each side. */
  lemma {:induction false} SplitAtSep(a: string, c: char, b: string)
    requires IsSep(c)
    ensures Split(a + [c] + b) == Split(a) + Split(b)
  {
    var s := a + [c] + b;
    if a == [] {
      assert s == [c] + b && s[1..] == b;
    } else {
      SplitAtSep(a[1..], c, b);
      assert s[0] == a[0] && s[1..] == a[1..] + [c] + b;
      PrependAppend(a[0], Split(a[1..]), Split(b));
    }
  }

  /** A text with no separator is a single piece. */
  lemma {:induction false} SplitNoSep(s: string)
    requires AllKept(s, NotSep)
    ensures Split(s) == [s]
  {
    if s != [] {
      SplitNoSep(s[1..]);
      assert s == [s[0]] + s[1..];
    }
  }

  // ------------------------------------------------------------ the bulk URL list

  /** `[u.strip() for u in pieces if u.strip()]`. */
  function Clean(pieces: seq<string>): seq<string> {
    if pieces == [] then []
    else
      var u := Strip(pieces[0]);
      (if u != "" then [u] else []) + Clean(pieces[1..])
  }

  /** The URLs of the bulk box: every piece stripped, blank pieces dropped. */
  function ParseUrls(text: string): seq<string> {
    Clean(Split(text))
  }

  predicate IsUrlToken(u: string) {
    u != "" && !IsSpace(u[0]) && !IsSpace(u[|u| - 1]) && AllKept(u, NotSep)
  }

  /** Each cleaned piece is non-blank, stripped and, when the pieces were, free of separators. */
  lemma {:induction false} CleanTokens(pieces: seq<string>)
    requires forall i :: 0 <= i < |pieces| ==> AllKept(pieces[i], NotSep)
    ensures forall k :: 0 <= k < |Clean(pieces)| ==> IsUrlToken(Clean(pieces)[k])
  {
    if pieces != [] {
      CleanTokens(pieces[1..]);
      var u := Strip(pieces[0]);
      StripSlice(pieces[0]);
      var a := LeadRun(pieces[0], IsSpace);
      assert u == pieces[0][a..a + |u|];
      assert AllKept(u, NotSep) by {
        forall j | 0 <= j < |u| ensures NotSep(u[j]) {
          assert u[j] == pieces[0][a + j];
        }
      }
      var head := if u != "" then [u] else [];
      var c := Clean(pieces);
      assert c == head + Clean(pieces[1..]);
      forall k | 0 <= k < |c| ensures IsUrlToken(c[k]) {
        if k >= |head| { assert c[k] == Clean(pieces[1..])[k - |head|]; }
      }
    }
  }

  /** Every URL of the bulk box is non-blank, has no surrounding whitespace and no separator. */
  lemma ParseUrlsTokens(text: string)
    ensures forall k :: 0 <= k < |ParseUrls(text)| ==> IsUrlToken(ParseUrls(text)[k])
  {
    SplitPiecesClean(text);
    CleanTokens(Split(text));
  }

  lemma {:induction false} CleanAppend(p: seq<string>, q: seq<string>)
    ensures Clean(p + q) == Clean(p) + Clean(q)
  {
    if p != [] {
      CleanAppend(p[1..], q);
      assert (p + q)[0] == p[0] && (p + q)[1..] == p[1..] + q;
      var h := if Strip(p[0]) != "" then [Strip(p[0])] else [];
      assert Clean(p + q) == h + Clean(p[1..] + q);
      assert Clean(p) == h + Clean(p[1..]);
    } else {
      assert p + q == q;
    }
  }

  /** Text on both sides of a newline or comma gives the URLs of each side, in order. */
  lemma ParseUrlsAppend(a: string, c: char, b: string)
    requires IsSep(c)
    ensures ParseUrls(a + [c] + b) == ParseUrls(a) + ParseUrls(b)
  {
    SplitAtSep(a, c, b);
    CleanAppend(Split(a), Split(b));
  }

  /** A box holding one URL, maybe padded with whitespace, gives just that URL. */
  lemma ParseUrlsSingle(s: string)
    requires AllKept(s, NotSep) && Strip(s) != ""
    ensures ParseUrls(s) == [Strip(s)]
  {
    SplitNoSep(s);
    assert [s][1..] == [];
    assert Clean([s]) == [Strip(s)] + Clean([]);
  }

  // ------------------------------------------------------------ file names

  /** The decimal digit for `d`. */
  function Digit(d: int): char
    requires 0 <= d < 10
  {
    (48 + d) as char
  }

  predicate IsDigit(c: char) { '0' <= c <= '9' }

  /** `str(n)`: decimal, no leading zero. */
  function NatToString(n: nat): (s: string)
    ensures |s| >= 1
  {
    if n < 10 then [Digit(n)] else NatToString(n / 10) + [Digit(n % 10)]
  }

  /** The number a string of digits denotes. */
  function DigitsValue(s: string): nat
    requires AllKept(s, IsDigit)
  {
    if s == [] then 0 else DigitsValue(s[..|s| - 1]) * 10 + (s[|s| - 1] as int - 48)
  }

  /** `str(n)` is all digits, starts with a non-zero digit unless `n` is 0, and denotes `n`. */
  lemma {:induction false} NatToStringDenotes(n: nat)
    ensures AllKept(NatToString(n), IsDigit)
    ensures NatToString(n)[0] == '0' ==> n == 0
    ensures DigitsValue(NatToString(n)) == n
  {
    var s := NatToString(n);
    if n >= 10 {
      NatToStringDenotes(n / 10);
      var t := NatToString(n / 10);
      assert s == t + [Digit(n % 10)];
      assert s[..|s| - 1] == t;
      assert s[0] == t[0];
    }
  }

  /** Different numbers are written differently. */
  lemma NatToStringInjective(m: nat, n: nat)
    ensures NatToString(m) == NatToString(n) ==> m == n
  {
    NatToStringDenotes(m);
    NatToStringDenotes(n);
  }

  /** `f"bulk_image_{i}.jpeg"`. */
  function FileName(i: nat): string {
    "bulk_image_" + NatToString(i) + ".jpeg"
  }

  /** Distinct image numbers give distinct file names, so no bulk image overwrites another. */
  lemma FileNameInjective(i: nat, j: nat)
    ensures FileName(i) == FileName(j) ==> i == j
  {
    if FileName(i) == FileName(j) {
      var a, b := FileName(i), FileName(j);
      assert NatToString(i) == a[11..|a| - 5];
      assert NatToString(j) == b[11..|b| - 5];
      NatToStringInjective(i, j);
    }
  }

  // ------------------------------------------------------------ the session

  /** What the cache keeps per URL: the scraped listing and the prepared photo, if any. */
  datatype CacheEntry = CacheEntry(info: Listing, img: Option<Photo>)

  /** One bulk image: its file name, its URL and the cached data it is drawn from. */
  datatype Output = Output(name: string, url: string, entry: CacheEntry)

  /**
   * The cache `after` is `before` once the URLs `done` have gone through the bulk loop:
   * exactly those URLs were added, old entries are untouched, new ones are what `fetch`
   * returned for them, and `fetched` lists the new URLs, each once.
   */
  ghost predicate CachedFrom(before: map<string, CacheEntry>, after: map<string, CacheEntry>, done: seq<string>,
                             fetched: seq<string>, fetch: string -> Option<CacheEntry>) {
    && (forall u :: u in after <==> u in before || u in done)
    && (forall u :: u in before ==> u in after && after[u] == before[u])
    && (forall u :: u in after && u !in before ==> fetch(u) == Some(after[u]))
    && (forall u :: u in fetched <==> u in after && u !in before)
    && (forall j, k :: 0 <= j < k < |fetched| ==> fetched[j] != fetched[k])
  }

  /** One pass of the bulk loop: fetch `url` only when it is not cached yet. */
  lemma CachedFromStep(before: map<string, CacheEntry>, after: map<string, CacheEntry>, done: seq<string>,
                       fetched: seq<string>, fetch: string -> Option<CacheEntry>, url: string)
    requires CachedFrom(before, after, done, fetched, fetch)
    ensures url in after ==> CachedFrom(before, after, done + [url], fetched, fetch)
    ensures url !in after && fetch(url).Some? ==>
              CachedFrom(before, after[url := fetch(url).value], done + [url], fetched + [url], fetch)
  {
    if url !in after {
      var f := fetched + [url];
      forall j, k | 0 <= j < k < |f| ensures f[j] != f[k] {
        if k == |fetched| { assert f[j] == fetched[j] && f[j] in after; }
        else { assert f[j] == fetched[j] && f[k] == fetched[k]; }
      }
    }
  }

  /** `outputs[k]` is image `k + 1`, drawn for `urls[k]` from its cached entry. */
  ghost predicate Served(outputs: seq<Output>, urls: seq<string>, cache: map<string, CacheEntry>) {
    && |outputs| == |urls|
    && forall k :: 0 <= k < |urls| ==>
         urls[k] in cache && outputs[k] == Output(FileName(k + 1), urls[k], cache[urls[k]])
  }

  /** Caching a new URL leaves the images already drawn as they were. */
  lemma ServedGrow(outputs: seq<Output>, urls: seq<string>, cache: map<string, CacheEntry>, url: string, e: CacheEntry)
    requires Served(outputs, urls, cache) && url !in cache
    ensures Served(outputs, urls, cache[url := e])
  {
    forall k | 0 <= k < |urls| ensures urls[k] != url { assert urls[k] in cache; }
  }

  /** Drawing the next image from a cached URL. */
  lemma ServedSnoc(outputs: seq<Output>, urls: seq<string>, cache: map<string, CacheEntry>, url: string)
    requires Served(outputs, urls, cache) && url in cache
    ensures Served(outputs + [Output(FileName(|urls| + 1), url, cache[url])], urls + [url], cache)
  {
    var o, u := outputs + [Output(FileName(|urls| + 1), url, cache[url])], urls + [url];
    forall k | 0 <= k < |u| ensures u[k] in cache && o[k] == Output(FileName(k + 1), u[k], cache[u[k]]) {
      if k < |urls| { assert o[k] == outputs[k] && u[k] == urls[k]; }
    }
  }

  /**
   * One pass of the bulk loop over `urls[i]` that does not raise (the URL is cached or
   * its fetch succeeds), as both the cache and the images see it.
   */
  lemma BulkStep(before: map<string, CacheEntry>, cache: map<string, CacheEntry>, urls: seq<string>, i: nat,
                 outputs: seq<Output>, fetched: seq<string>, fetch: string -> Option<CacheEntry>)
    requires i < |urls| && (urls[i] in cache || fetch(urls[i]).Some?)
    requires Served(outputs, urls[..i], cache) && CachedFrom(before, cache, urls[..i], fetched, fetch)
    ensures var url := urls[i];
      var next := if url in cache then cache else cache[url := fetch(url).value];
      && Served(outputs + [Output(FileName(i + 1), url, next[url])], urls[..i + 1], next)
      && CachedFrom(before, next, urls[..i + 1], if url in cache then fetched else fetched + [url], fetch)
  {
    var url := urls[i];
    assert urls[..i + 1] == urls[..i] + [url];
    CachedFromStep(before, cache, urls[..i], fetched, fetch, url);
    if url in cache {
      ServedSnoc(outputs, urls[..i], cache, url);
    } else {
      var next := cache[url := fetch(url).value];
      ServedGrow(outputs, urls[..i], cache, url, fetch(url).value);
      ServedSnoc(outputs, urls[..i], next, url);
      assert CachedFrom(before, next, urls[..i + 1], fetched + [url], fetch);
    }
  }

  /**
   * `st.session_state`: the URL cache, which lives as long as the browser session.
   * `fetch` stands for scraping a listing and downloading and preparing its photo;
   * `None` is a fetch that raises (a network error, or a price `float` rejects), which
   * ends the script run where it happens.
   */
  class Session {
    var cache: map<string, CacheEntry>

    /** Neither mode ever caches the empty URL. */
    ghost predicate Valid()
      reads this
    {
      "" !in cache
    }

    constructor ()
      ensures cache == map[] && Valid()
    {
      cache := map[];
    }

    /**
     * The single-URL mode: a non-empty URL not yet cached is fetched once and cached
     * when the fetch succeeds; the image is then drawn from the cached entry, if any.
     */
    method SingleUrl(url: string, fetch: string -> Option<CacheEntry>) returns (data: Option<CacheEntry>, fetched: bool)
      requires Valid()
      modifies this
      ensures Valid()
      ensures fetched <==> url != "" && url !in old(cache) && fetch(url).Some?
      ensures cache == if fetched then old(cache)[url := fetch(url).value] else old(cache)
      ensures url in cache <==> url != "" && (url in old(cache) || fetch(url).Some?)
      ensures data == if url in cache then Some(cache[url]) else None
    {
      fetched := false;
      if url != "" && url !in cache {
        var got := fetch(url);
        if got.Some? {
          cache := cache[url := got.value];
          fetched := true;
        }
      }
      data := if url in cache then Some(cache[url]) else None;
    }

    /**
     * The bulk mode: for the `i`-th URL (from 1), fetch it if it is not cached, then
     * draw image `bulk_image_i.jpeg` from the cached entry. Each URL is fetched at most
     * once, cached entries never change, and a repeated URL gets its own image. The
     * first fetch that raises (`failed`) ends the loop: the URLs before it are cached
     * and drawn, that one and those after it are not.
     */
    method BulkUrls(urlsText: string, fetch: string -> Option<CacheEntry>)
      returns (outputs: seq<Output>, fetched: seq<string>, failed: bool)
      requires Valid()
      modifies this
      ensures Valid()
      ensures |outputs| <= |ParseUrls(urlsText)|
      ensures failed <==> |outputs| < |ParseUrls(urlsText)|
      ensures failed ==> var url := ParseUrls(urlsText)[|outputs|]; url !in cache && fetch(url).None?
      ensures Served(outputs, ParseUrls(urlsText)[..|outputs|], cache)
      ensures CachedFrom(old(cache), cache, ParseUrls(urlsText)[..|outputs|], fetched, fetch)
    {
      var urls := ParseUrls(urlsText);
      ParseUrlsTokens(urlsText);
      outputs, fetched, failed := [], [], false;
      for i := 0 to |urls|
        invariant Valid() && !failed
        invariant Served(outputs, urls[..i], cache)
        invariant CachedFrom(old(cache), cache, urls[..i], fetched, fetch)
      {
        var url := urls[i];
        assert IsUrlToken(url);
        if url !in cache && fetch(url).None? {
          failed := true;
          break;
        }
        BulkStep(old(cache), cache, urls, i, outputs, fetched, fetch);
        if url !in cache {
          cache := cache[url := fetch(url).value];
          fetched := fetched + [url];
        }
        outputs := outputs + [Output(FileName(i + 1), url, cache[url])];
      }
      if !failed {
        assert urls[..|urls|] == urls;
      }
    }
  }
}
