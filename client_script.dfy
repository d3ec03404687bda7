/**
 * The computational parts of static/js/main.js: the `getCookie` parser,
 * the table-of-contents builder and the `shareArticle` URL choice.
 *
 * `document.cookie`, the article's `h2, h3` headings and the page address
 * and title are parameters; `encodeURIComponent` and `decodeURIComponent`
 * are opaque function parameters.
 */
module ClientScript {
  import opened Wrappers
  import opened Text

  // ---------------------------------------------------------------------
  // getCookie
  // ---------------------------------------------------------------------

  /** `cookie.substring(0, name.length + 1) === (name + '=')`. */
  predicate EntryMatches(cookie: string, name: string)
  {
    JsSubstring(cookie, 0, |name| + 1) == name + "="
  }

  /** The decoded text after `name=` in a matching entry. */
  function EntryValue(cookie: string, name: string, decode: string -> string): string
  {
    decode(JsSubstringFrom(cookie, |name| + 1))
  }

  /** The value of the first trimmed entry that matches `name`, if any. */
  function FirstCookie(entries: seq<string>, name: string, decode: string -> string): Option<string>
  {
    if entries == [] then None
    else if EntryMatches(JsTrim(entries[0]), name) then Some(EntryValue(JsTrim(entries[0]), name, decode))
    else FirstCookie(entries[1..], name, decode)
  }

  /** What `getCookie(name)` returns for a given `document.cookie`. */
  function CookieValue(documentCookie: string, name: string, decode: string -> string): Option<string>
  {
    if documentCookie == "" then None
    else FirstCookie(Split(documentCookie, ';'), name, decode)
  }

  /** `getCookie`: scan the `;`-separated entries and stop at the first match. */
  method GetCookie(documentCookie: string, name: string, decode: string -> string)
    returns (cookieValue: Option<string>)
    ensures cookieValue == CookieValue(documentCookie, name, decode)
  {
    cookieValue := None;
    if documentCookie != "" {
      var cookies := Split(documentCookie, ';');
      var i := 0;
      while i < |cookies|
        invariant 0 <= i <= |cookies|
        invariant cookieValue == None
        invariant FirstCookie(cookies[i..], name, decode) == FirstCookie(cookies, name, decode)
      {
        var cookie := JsTrim(cookies[i]);
        if JsSubstring(cookie, 0, |name| + 1) == name + "=" {
          cookieValue := Some(decode(JsSubstringFrom(cookie, |name| + 1)));
          break;
        }
        assert cookies[i..][1..] == cookies[i + 1..];
        i := i + 1;
      }
    }
  }

  /** An entry matches exactly when it starts with `name=`. */
  lemma EntryMatchesIsPrefix(cookie: string, name: string)
    ensures EntryMatches(cookie, name) <==> name + "=" <= cookie
  {
    SubstringEqualsIsPrefix(cookie, name + "=");
  }

  /** The result is the value of the first matching entry; later entries do not matter. */
  lemma {:induction false} FirstCookieAt(entries: seq<string>, name: string, decode: string -> string, i: nat)
    requires i < |entries| && EntryMatches(JsTrim(entries[i]), name)
    requires forall j :: 0 <= j < i ==> !EntryMatches(JsTrim(entries[j]), name)
    ensures FirstCookie(entries, name, decode) == Some(EntryValue(JsTrim(entries[i]), name, decode))
  {
    if i > 0 {
      TailIndex(entries, i);
      FirstCookieAt(entries[1..], name, decode, i - 1);
    }
  }

  /** Position `j` of the tail is position `j + 1` of the whole. */
  lemma TailIndex(entries: seq<string>, i: nat)
    requires 0 < i <= |entries|
    ensures |entries[1..]| == |entries| - 1
    ensures forall j :: 0 <= j < i - 1 ==> entries[1..][j] == entries[j + 1]
  {
  }

  /** No matching entry gives `null`, and `null` means no entry matches. */
  lemma {:induction false} FirstCookieNone(entries: seq<string>, name: string, decode: string -> string)
    ensures FirstCookie(entries, name, decode) == None <==>
      forall j :: 0 <= j < |entries| ==> !EntryMatches(JsTrim(entries[j]), name)
  {
    if entries != [] {
      FirstCookieNone(entries[1..], name, decode);
      NoMatchHeadTail(entries, name);
    }
  }

  /** No entry matches exactly when the first does not and no later one does. */
  lemma NoMatchHeadTail(entries: seq<string>, name: string)
    requires entries != []
    ensures (forall j :: 0 <= j < |entries| ==> !EntryMatches(JsTrim(entries[j]), name)) <==>
      && !EntryMatches(JsTrim(entries[0]), name)
      && (forall j :: 0 <= j < |entries[1..]| ==> !EntryMatches(JsTrim(entries[1..][j]), name))
  {
    var tail := entries[1..];
    assert forall j :: 0 < j < |entries| ==> entries[j] == tail[j - 1];
  }

  /** Once an entry matches, appending more entries, even with the same name, changes nothing. */
  lemma {:induction false} LaterEntriesIgnored(entries: seq<string>, more: seq<string>, name: string,
                                               decode: string -> string)
    requires FirstCookie(entries, name, decode).Some?
    ensures FirstCookie(entries + more, name, decode) == FirstCookie(entries, name, decode)
  {
    HeadAndTailOfConcat(entries, more);
    if !EntryMatches(JsTrim(entries[0]), name) {
      LaterEntriesIgnored(entries[1..], more, name, decode);
    }
  }

  /** Head and tail of a concatenation whose left part is non-empty. */
  lemma HeadAndTailOfConcat(x: seq<string>, y: seq<string>)
    requires x != []
    ensures (x + y)[0] == x[0] && (x + y)[1..] == x[1..] + y
  {
  }

  /** An empty `document.cookie` gives `null`. */
  lemma EmptyCookieString(name: string, decode: string -> string)
    ensures CookieValue("", name, decode) == None
  {
  }

  /**
   * A name that merely begins with `name` does not match: the character
   * after `name` must be `=`.
   */
  lemma LongerNameDoesNotMatch(cookie: string, name: string, c: char)
    requires c != '=' && name + [c] <= cookie
    ensures !EntryMatches(cookie, name)
  {
    EntryMatchesIsPrefix(cookie, name);
    assert cookie[|name|] == c;
  }

  /** `csrftoken2=abc` is not the `csrftoken` cookie. */
  lemma CsrfTokenExample(decode: string -> string)
    ensures CookieValue("csrftoken2=abc", "csrftoken", decode) == None
  {
    var cookie := "csrftoken2=abc";
    assert "csrftoken" + ['2'] <= cookie;
    LongerNameDoesNotMatch(cookie, "csrftoken", '2');
    SingleEntry(cookie, "csrftoken", decode);
  }

  /** A `document.cookie` with one entry and no surrounding blanks is that entry alone. */
  lemma SingleEntry(cookie: string, name: string, decode: string -> string)
    requires cookie != [] && ';' !in cookie
    requires !JsIsSpace(cookie[0]) && !JsIsSpace(cookie[|cookie| - 1])
    ensures CookieValue(cookie, name, decode)
      == if EntryMatches(cookie, name) then Some(EntryValue(cookie, name, decode)) else None
  {
    IndexOfIs(cookie, ';', |cookie|);
    assert cookie[..|cookie|] == cookie;
    assert Split(cookie, ';') == [cookie];
    StripNoop(cookie, JsIsSpace);
    assert JsTrim(cookie) == cookie;
    assert [cookie][0] == cookie && [cookie][1..] == [];
    assert CookieValue(cookie, name, decode) == FirstCookie([cookie], name, decode);
    if !EntryMatches(cookie, name) {
      assert FirstCookie([cookie], name, decode) == FirstCookie([], name, decode) == None;
    }
  }

  /**
   * The value is everything after the first `name=`, so a value that
   * itself holds `=` is returned whole.
   */
  lemma ValueKeepsEquals(name: string, v: string, decode: string -> string)
    requires name != [] && !JsIsSpace(name[0]) && ';' !in name
    requires v != [] && !JsIsSpace(v[|v| - 1]) && ';' !in v
    ensures CookieValue(name + "=" + v, name, decode) == Some(decode(v))
  {
    var cookie := name + "=" + v;
    assert cookie[0] == name[0] && cookie[|cookie| - 1] == v[|v| - 1];
    SingleEntry(cookie, name, decode);
    EntryMatchesIsPrefix(cookie, name);
    assert JsSubstringFrom(cookie, |name| + 1) == v;
  }

  // ---------------------------------------------------------------------
  // Table of contents
  // ---------------------------------------------------------------------

  /** An `h2` or `h3` element inside the article; the builder assigns its `id`. */
  class HeadingElement {
    const tagName: string
    const textContent: string
    var id: string

    constructor (tagName: string, textContent: string, id: string)
      ensures this.tagName == tagName && this.textContent == textContent && this.id == id
    {
      this.tagName := tagName;
      this.textContent := textContent;
      this.id := id;
    }
  }

  /** The `<article>` element, reduced to `querySelectorAll('h2, h3')` in document order. */
  class ArticleElement {
    const headings: seq<HeadingElement>

    constructor (headings: seq<HeadingElement>)
      ensures this.headings == headings
    {
      this.headings := headings;
    }
  }

  /** An `<li>` holding `<a href=...>text</a>`, with `padding-left: 1rem` for H3. */
  datatype TocItem = TocItem(href: string, text: string, paddingLeft: Option<string>)

  /** The `.table-of-contents ul` element; its children in order. */
  class TocList {
    var items: seq<TocItem>

    constructor (items: seq<TocItem>)
      ensures this.items == items
    {
      this.items := items;
    }

    /** `toc.appendChild(li)`. */
    method AppendChild(li: TocItem)
      modifies this
      ensures items == old(items) + [li]
    {
      items := items + [li];
    }
  }

  /** `heading-${index}`. */
  function HeadingId(index: nat): string
  {
    "heading-" + NatToString(index)
  }

  /** The list item made for the heading at `index`. */
  function TocEntry(heading: HeadingElement, index: nat): TocItem
  {
    TocItem("#" + HeadingId(index), heading.textContent,
            if heading.tagName == "H3" then Some("1rem") else None)
  }

  /** The list items for a run of headings, one per heading, in document order. */
  function TocEntries(headings: seq<HeadingElement>): (items: seq<TocItem>)
    ensures |items| == |headings|
    ensures forall i :: 0 <= i < |headings| ==> items[i] == TocEntry(headings[i], i)
  {
    seq(|headings|, i requires 0 <= i < |headings| => TocEntry(headings[i], i))
  }

  /** The DOMContentLoaded handler that numbers the headings and fills the list. */
  method GenerateTableOfContents(article: ArticleElement?, toc: TocList?)
    requires article != null ==>
      forall i, j :: 0 <= i < j < |article.headings| ==> article.headings[i] != article.headings[j]
    modifies if article != null then set h | h in article.headings else {}, toc
    ensures article == null || toc == null ==>
      toc != null ==> toc.items == old(toc.items)
    ensures article != null && toc == null ==>
      forall h :: h in article.headings ==> h.id == old(h.id)
    ensures article != null && toc != null ==>
      && toc.items == old(toc.items) + TocEntries(article.headings)
      && forall i :: 0 <= i < |article.headings| ==> article.headings[i].id == HeadingId(i)
  {
    if article != null && toc != null {
      var headings := article.headings;
      for index := 0 to |headings|
        invariant toc.items == old(toc.items) + TocEntries(headings[..index])
        invariant forall k :: 0 <= k < index ==> headings[k].id == HeadingId(k)
      {
        var id := HeadingId(index);
        headings[index].id := id;
        var li := TocItem("#" + id, headings[index].textContent,
                          if headings[index].tagName == "H3" then Some("1rem") else None);
        toc.AppendChild(li);
        assert TocEntries(headings[..index + 1]) == TocEntries(headings[..index]) + [li];
      }
      assert headings[..|headings|] == headings;
    }
  }

  /** Every entry links to a different anchor, so no two headings share an id. */
  lemma HeadingIdsDistinct(i: nat, j: nat)
    requires i != j
    ensures HeadingId(i) != HeadingId(j)
  {
    if HeadingId(i) == HeadingId(j) {
      var p := "heading-";
      assert HeadingId(i)[|p|..] == NatToString(i);
      assert HeadingId(j)[|p|..] == NatToString(j);
      NatToStringInjective(i, j);
    }
  }

  /**
   * One entry per heading, in document order: the `i`-th links to
   * `#heading-i` with that heading's text, is indented only for an H3, and
   * no two entries link to the same anchor.
   */
  lemma TocEntriesFaithful(headings: seq<HeadingElement>)
    ensures |TocEntries(headings)| == |headings|
    ensures forall i :: 0 <= i < |headings| ==>
      && TocEntries(headings)[i].href == "#heading-" + NatToString(i)
      && TocEntries(headings)[i].text == headings[i].textContent
      && (TocEntries(headings)[i].paddingLeft.Some? <==> headings[i].tagName == "H3")
    ensures forall i, j :: 0 <= i < j < |headings| ==> TocEntries(headings)[i].href != TocEntries(headings)[j].href
  {
    forall i, j | 0 <= i < j < |headings|
      ensures TocEntries(headings)[i].href != TocEntries(headings)[j].href
    {
      HeadingIdsDistinct(i, j);
      assert TocEntries(headings)[i].href[1..] == HeadingId(i);
      assert TocEntries(headings)[j].href[1..] == HeadingId(j);
    }
  }

  // ---------------------------------------------------------------------
  // shareArticle
  // ---------------------------------------------------------------------

  /**
   * The window `shareArticle(platform)` opens, from the encoded page
   * address and title; `None` is the `undefined` left by an unknown platform.
   */
  function ShareUrl(platform: string, href: string, title: string, encode: string -> string): (url: Option<string>)
    ensures url.Some? <==> platform == "twitter" || platform == "facebook" || platform == "linkedin"
  {
    var url := encode(href);
    var text := encode(title);
    if platform == "twitter" then Some("https://twitter.com/intent/tweet?url=" + url + "&text=" + text)
    else if platform == "facebook" then Some("https://www.facebook.com/sharer/sharer.php?u=" + url)
    else if platform == "linkedin" then
      Some("https://www.linkedin.com/shareArticle?mini=true&url=" + url + "&title=" + text)
    else None
  }

  /**
   * Only the three known platforms produce an address, each on its own
   * host and each carrying the encoded page address.
   */
  lemma ShareUrlCases(platform: string, href: string, title: string, encode: string -> string)
    ensures ShareUrl(platform, href, title, encode).Some? <==> platform in {"twitter", "facebook", "linkedin"}
    ensures platform == "twitter" ==>
      ShareUrl(platform, href, title, encode).value
        == "https://twitter.com/intent/tweet?url=" + encode(href) + "&text=" + encode(title)
    ensures platform == "facebook" ==>
      ShareUrl(platform, href, title, encode).value
        == "https://www.facebook.com/sharer/sharer.php?u=" + encode(href)
    ensures platform == "linkedin" ==>
      ShareUrl(platform, href, title, encode).value
        == "https://www.linkedin.com/shareArticle?mini=true&url=" + encode(href) + "&title=" + encode(title)
  {
  }

  /**
   * Each known platform's address starts with its own site:
   * `https://twitter.com/`, `https://www.facebook.com/` or
   * `https://www.linkedin.com/`.
   */
  lemma ShareUrlHost(platform: string, href: string, title: string, encode: string -> string)
    requires platform in {"twitter", "facebook", "linkedin"}
    ensures ShareUrl(platform, href, title, encode).Some?
    ensures platform == "twitter" ==> "https://twitter.com/" <= ShareUrl(platform, href, title, encode).value
    ensures platform == "facebook" ==> "https://www.facebook.com/" <= ShareUrl(platform, href, title, encode).value
    ensures platform == "linkedin" ==> "https://www.linkedin.com/" <= ShareUrl(platform, href, title, encode).value
  {
    if platform == "twitter" {
      TwitterHost(href, title, encode);
    } else if platform == "facebook" {
      FacebookHost(href, title, encode);
    } else {
      LinkedinHost(href, title, encode);
    }
  }

  /** The address for `twitter` is on `twitter.com`. */
  lemma TwitterHost(href: string, title: string, encode: string -> string)
    ensures "https://twitter.com/" <= ShareUrl("twitter", href, title, encode).value
  {
    var base := "https://twitter.com/intent/tweet?url=";
    PrefixOfConcat("https://twitter.com/", base, encode(href) + "&text=" + encode(title));
  }

  /** The address for `facebook` is on `www.facebook.com`. */
  lemma FacebookHost(href: string, title: string, encode: string -> string)
    ensures "https://www.facebook.com/" <= ShareUrl("facebook", href, title, encode).value
  {
    var base := "https://www.facebook.com/sharer/sharer.php?u=";
    PrefixOfConcat("https://www.facebook.com/", base, encode(href));
  }

  /** The address for `linkedin` is on `www.linkedin.com`. */
  lemma LinkedinHost(href: string, title: string, encode: string -> string)
    ensures "https://www.linkedin.com/" <= ShareUrl("linkedin", href, title, encode).value
  {
    var base := "https://www.linkedin.com/shareArticle?mini=true&url=";
    PrefixOfConcat("https://www.linkedin.com/", base, encode(href) + "&title=" + encode(title));
  }

  /** A prefix of the left part of a concatenation is a prefix of the whole. */
  lemma PrefixOfConcat(p: string, a: string, b: string)
    requires p <= a
    ensures p <= a + b
  {
    assert (a + b)[..|p|] == a[..|p|];
  }

  /** Two strings that start with prefixes differing at some position are different. */
  lemma PrefixesDiffer(p: string, q: string, u: string, v: string, i: nat)
    requires p <= u && q <= v
    requires i < |p| && i < |q| && p[i] != q[i]
    ensures u != v
  {
    assert u[i] == p[i] && v[i] == q[i];
  }

  /** Two different platforms never open the same address, whatever the titles. */
  lemma ShareUrlsDiffer(p1: string, p2: string, href: string, t1: string, t2: string,
                        encode: string -> string)
    requires p1 in {"twitter", "facebook", "linkedin"} && p2 in {"twitter", "facebook", "linkedin"}
    requires p1 != p2
    ensures ShareUrl(p1, href, t1, encode) != ShareUrl(p2, href, t2, encode)
  {
    SiteOfPrefix(p1, href, t1, encode);
    SiteOfPrefix(p2, href, t2, encode);
    var u1 := ShareUrl(p1, href, t1, encode).value;
    var u2 := ShareUrl(p2, href, t2, encode).value;
    SitesDiffer(p1, p2);
    var i := if p1 == "twitter" || p2 == "twitter" then 8 else 12;
    PrefixesDiffer(SiteOf(p1), SiteOf(p2), u1, u2, i);
  }

  /** The site prefix `ShareUrlHost` gives for a known platform. */
  function SiteOf(platform: string): string
  {
    if platform == "twitter" then "https://twitter.com/"
    else if platform == "facebook" then "https://www.facebook.com/"
    else "https://www.linkedin.com/"
  }

  /** `ShareUrlHost`, stated with `SiteOf`. */
  lemma SiteOfPrefix(platform: string, href: string, title: string, encode: string -> string)
    requires platform in {"twitter", "facebook", "linkedin"}
    ensures ShareUrl(platform, href, title, encode).Some?
    ensures SiteOf(platform) <= ShareUrl(platform, href, title, encode).value
  {
    ShareUrlHost(platform, href, title, encode);
  }

  /** `twitter.com` differs from the `www.` sites at position 8; the two `www.` sites differ at 12. */
  lemma SitesDiffer(p1: string, p2: string)
    requires p1 in {"twitter", "facebook", "linkedin"} && p2 in {"twitter", "facebook", "linkedin"}
    requires p1 != p2
    ensures var i := if p1 == "twitter" || p2 == "twitter" then 8 else 12;
      i < |SiteOf(p1)| && i < |SiteOf(p2)| && SiteOf(p1)[i] != SiteOf(p2)[i]
  {
    var t, f, l := "https://twitter.com/", "https://www.facebook.com/", "https://www.linkedin.com/";
    assert t[8] == 't' && f[8] == 'w' && l[8] == 'w';
    assert f[12] == 'f' && l[12] == 'l';
  }

  /** The Facebook address ignores the title; the other two carry it. */
  lemma FacebookIgnoresTitle(href: string, t1: string, t2: string, encode: string -> string)
    ensures ShareUrl("facebook", href, t1, encode) == ShareUrl("facebook", href, t2, encode)
  {
  }
}
