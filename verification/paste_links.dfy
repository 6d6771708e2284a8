/**
 Rewriting of a pastebin link to its raw-text form, done by
 `fetch_code_from_url` (`ai_integration.py`, lines 92-95) before the code is
 downloaded. Matching is plain, case-sensitive substring search on the whole
 URL; nothing is parsed as a URL.
 */
module PasteLinks {
  import opened Strings

  /** The host whose links are rewritten. */
  const Host: string := "pastebin.com"

  /** The host followed by a path separator: what gets rewritten. */
  const HostPath: string := "pastebin.com/"

  /** What each `HostPath` becomes. */
  const RawHostPath: string := "pastebin.com/raw/"

  /** A URL holding this is taken to be a raw link already. */
  const RawMarker: string := "/raw/"

  /** The guard of the rewrite: the host occurs and no raw marker does. */
  predicate NeedsRawRewrite(url: string) {
    Contains(url, Host) && !Contains(url, RawMarker)
  }

  /** Python's `url[:-1]` under `url.endswith('/')`: at most one trailing slash goes. */
  function DropTrailingSlash(url: string): (r: string)
    ensures |url| <= |r| + 1 && |r| <= |url| && r == url[..|r|]
    ensures |r| < |url| <==> EndsWith(url, "/")
  {
    if EndsWith(url, "/") then url[..|url| - 1] else url
  }

  /**
   The URL actually fetched. A URL that does not mention the host, or that
   already holds "/raw/", is fetched as given.
   */
  function NormalizeUrl(url: string): (r: string)
    ensures !Contains(url, Host) ==> r == url
    ensures Contains(url, RawMarker) ==> r == url
    ensures NeedsRawRewrite(url) && Contains(DropTrailingSlash(url), HostPath) ==> Contains(r, RawMarker)
  {
    if NeedsRawRewrite(url) then
      var t := DropTrailingSlash(url);
      var r := ReplaceAll(t, HostPath, RawHostPath);
      RewriteAddsMarker(t);
      r
    else
      url
  }

  /** Replacing a host path that occurs puts the raw marker into the text. */
  lemma RewriteAddsMarker(t: string)
    ensures Contains(t, HostPath) ==> Contains(ReplaceAll(t, HostPath, RawHostPath), RawMarker)
  {
    if Contains(t, HostPath) {
      RawHostPathHasMarker();
      ReplaceAllIntroduces(t, HostPath, RawHostPath);
      ContainsTransitive(ReplaceAll(t, HostPath, RawHostPath), RawHostPath, RawMarker);
    }
  }

  lemma RawHostPathHasMarker()
    ensures Contains(RawHostPath, RawMarker)
  {
    ContainsSlice(RawHostPath, 12, 17);
    assert RawHostPath[12..17] == RawMarker;
  }

  /** A text without the raw marker cannot hold the rewritten host path either. */
  lemma NoMarkerNoRawHostPath(t: string)
    requires !Contains(t, RawMarker)
    ensures !Contains(t, RawHostPath)
  {
    if Contains(t, RawHostPath) {
      RawHostPathHasMarker();
      ContainsTransitive(t, RawHostPath, RawMarker);
    }
  }

  /** Dropping a trailing slash cannot introduce the raw marker. */
  lemma DropKeepsNoMarker(url: string)
    requires !Contains(url, RawMarker)
    ensures !Contains(DropTrailingSlash(url), RawMarker)
  {
    var t := DropTrailingSlash(url);
    if Contains(t, RawMarker) {
      ContainsSlice(url, 0, |t|);
      ContainsTransitive(url, t, RawMarker);
    }
  }

  /**
   Undoing the rewrite (each "pastebin.com/raw/" back to "pastebin.com/")
   gives the input minus at most one trailing slash: apart from the inserted
   "raw/" segments every character is kept, in order.
   */
  lemma NormalizeUrlRoundTrip(url: string)
    requires NeedsRawRewrite(url)
    ensures ReplaceAll(NormalizeUrl(url), RawHostPath, HostPath) == DropTrailingSlash(url)
  {
    var t := DropTrailingSlash(url);
    DropKeepsNoMarker(url);
    NoMarkerNoRawHostPath(t);
    assert UniqueHead(RawHostPath);
    ReplaceAllUndo(t, HostPath, RawHostPath);
  }

  /**
   After a rewrite every occurrence of "pastebin.com/" in the result is
   followed by "raw/": no link to the host is left unrewritten.
   */
  lemma NormalizeUrlRewritesEveryLink(url: string)
    requires NeedsRawRewrite(url)
    ensures forall i :: OccursAt(NormalizeUrl(url), HostPath, i) ==> OccursAt(NormalizeUrl(url), RawHostPath, i)
  {
    assert StartsWith(RawHostPath, HostPath);
    assert UniqueHead(RawHostPath);
    ReplaceAllExtendsEvery(DropTrailingSlash(url), HostPath, RawHostPath);
  }

  /** The host name does not end in '/', so dropping a trailing slash keeps it. */
  lemma DropKeepsHost(url: string)
    requires Contains(url, Host)
    ensures Contains(DropTrailingSlash(url), Host)
  {
    if EndsWith(url, "/") {
      assert url[|url| - 1] == '/';
      ContainsDropLast(url, Host);
    }
  }

  /**
   The URLs on which a second pass still changes something: the guard holds,
   no "pastebin.com/" is left once a trailing slash is gone (so nothing gets
   rewritten), and the URL ends in two slashes (so the second pass drops
   another one).
   */
  predicate LosesSlashAgain(url: string) {
    NeedsRawRewrite(url) && !Contains(DropTrailingSlash(url), HostPath) && EndsWith(url, "//")
  }

  /**
   Normalising twice is normalising once exactly for the URLs that do not
   lose a slash again. Otherwise either the first pass inserted "/raw/" and
   the second pass leaves the URL alone, or nothing matched and the second
   pass finds no trailing slash and nothing to replace.
   */
  lemma NormalizeUrlIdempotent(url: string)
    ensures NormalizeUrl(NormalizeUrl(url)) == NormalizeUrl(url) <==> !LosesSlashAgain(url)
  {
    if NeedsRawRewrite(url) {
      var t := DropTrailingSlash(url);
      if !Contains(t, HostPath) {
        NormalizeUrlTrimOnly(url);
        if EndsWith(url, "//") {
          assert EndsWith(t, "/") by {
            assert t[|t| - 1] == url[|url| - 2];
          }
          var u := DropTrailingSlash(t);
          assert u == t[..|u|];
          assert !Contains(u, HostPath) by {
            if Contains(u, HostPath) {
              ContainsPrefix(t, |u|, HostPath);
            }
          }
          NormalizeUrlTrimOnly(t);
          assert |NormalizeUrl(t)| < |t|;
        } else {
          assert !EndsWith(t, "/") by {
            if EndsWith(t, "/") {
              assert false;
            }
          }
          assert NormalizeUrl(t) == ReplaceAll(t, HostPath, RawHostPath);
          ReplaceAllPassThrough(t, HostPath, RawHostPath);
        }
      }
    }
  }

  /** When the guard holds but no "pastebin.com/" is left after trimming, only the trailing slash goes. */
  lemma NormalizeUrlTrimOnly(url: string)
    requires NeedsRawRewrite(url) && !Contains(DropTrailingSlash(url), HostPath)
    ensures NormalizeUrl(url) == DropTrailingSlash(url)
    ensures NeedsRawRewrite(NormalizeUrl(url))
  {
    DropKeepsHost(url);
    DropKeepsNoMarker(url);
    ReplaceAllPassThrough(DropTrailingSlash(url), HostPath, RawHostPath);
  }

  /**
   A URL that loses a slash again: it names the host with a port, hence
   without "pastebin.com/", and ends in "//", so it loses one slash on each
   pass.
   */
  lemma NormalizeUrlNotIdempotent(url: string)
    requires url == "https://pastebin.com:80//"
    ensures NormalizeUrl(url) == url[..|url| - 1]
    ensures NormalizeUrl(NormalizeUrl(url)) == url[..|url| - 2]
  {
    var once := url[..|url| - 1];
    var twice := url[..|url| - 2];
    PortLinkFacts(url);
    assert DropTrailingSlash(url) == once;
    NormalizeUrlTrimOnly(url);
    assert DropTrailingSlash(once) == twice by {
      assert once[..|once| - 1] == twice;
    }
    assert !Contains(twice, HostPath) by {
      if Contains(twice, HostPath) {
        assert twice == once[..|twice|];
        ContainsPrefix(once, |twice|, HostPath);
      }
    }
    NormalizeUrlTrimOnly(once);
  }

  /** The port link names the host and holds no raw marker. */
  lemma PortLinkFacts(url: string)
    requires url == "https://pastebin.com:80//"
    ensures NeedsRawRewrite(url)
    ensures EndsWith(url, "/") && EndsWith(url[..|url| - 1], "/")
    ensures !Contains(url[..|url| - 1], HostPath)
  {
    PortLinkHasHost(url);
    PortLinkNotRaw(url);
    PortLinkNoHostPath(url[..|url| - 1]);
  }

  lemma PortLinkHasHost(url: string)
    requires url == "https://pastebin.com:80//"
    ensures Contains(url, Host)
  {
    ContainsSlice(url, 8, 20);
    assert url[8..20] == Host;
  }

  lemma PortLinkNotRaw(url: string)
    requires url == "https://pastebin.com:80//"
    ensures !Contains(url, RawMarker)
  {
    NotContainsByMismatch(url, RawMarker, 1, 1);
  }

  lemma PortLinkNoHostPath(once: string)
    requires once == "https://pastebin.com:80/"
    ensures !Contains(once, HostPath)
  {
    NotContainsByMismatch(once, HostPath, 0, 12);
  }

  /** A bare host link with one trailing slash loses the slash and gains no "/raw/". */
  lemma NormalizeUrlBareHost(url: string)
    requires url == "https://pastebin.com/"
    ensures NormalizeUrl(url) == "https://pastebin.com"
  {
    var t := url[..|url| - 1];
    assert NeedsRawRewrite(url) by {
      ContainsSlice(url, 8, 20);
      assert url[8..20] == Host;
      NotContainsByMismatch(url, RawMarker, 1, 1);
    }
    assert DropTrailingSlash(url) == t;
    assert !Contains(t, HostPath) by {
      NotContainsByMismatch(t, HostPath, 12, 12);
    }
    ReplaceAllPassThrough(t, HostPath, RawHostPath);
  }

  /** A paste link gains the "raw/" segment, and a trailing slash is dropped first. */
  lemma NormalizeUrlPasteLink(url: string)
    requires url == "pastebin.com/Xy12ab/"
    ensures NormalizeUrl(url) == "pastebin.com/raw/Xy12ab"
  {
    var t := url[..|url| - 1];
    var id := url[13..19];
    assert NeedsRawRewrite(url) by {
      ContainsSlice(url, 0, 12);
      assert url[0..12] == Host;
      NotContainsByMismatch(url, RawMarker, 1, 1);
    }
    assert DropTrailingSlash(url) == t;
    assert ReplaceAll(t, HostPath, RawHostPath) == RawHostPath + id by {
      assert StartsWith(t, HostPath);
      assert t[|HostPath|..] == id;
      NotContainsByMismatch(id, HostPath, 0, 0);
      ReplaceAllPassThrough(id, HostPath, RawHostPath);
    }
    assert RawHostPath + id == "pastebin.com/raw/Xy12ab";
  }

  /** A link that is already raw is left exactly as it is. */
  lemma NormalizeUrlRawLink(url: string)
    requires url == "https://pastebin.com/raw/Xy12ab"
    ensures NormalizeUrl(url) == url
  {
    assert Contains(url, RawMarker) by {
      ContainsSlice(url, 20, 25);
      assert url[20..25] == RawMarker;
    }
  }
}
