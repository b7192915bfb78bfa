/**
 * The link catalogue of app.js: links kept in `localStorage`, shown filtered by
 * tag, a list of the distinct tags for the filter, and a form that appends a
 * link after checking its required fields.
 */
module Links {
  import opened Wrappers
  import opened JsStrings
  import opened Sequences
  import opened Storage

  const STORAGE_KEY := "zelfgehoste-links"

  datatype Link = Link(name: string, url: string, tag: string, note: string)

  /** `loadLinks`: the stored list; a missing key gives [], and so does an unparseable one, which is removed. */
  method LoadLinks(store: KeyValueStore, parse: string -> Option<seq<Link>>) returns (links: seq<Link>)
    modifies store
    ensures links == StoredList(old(store.items), STORAGE_KEY, parse)
    ensures STORAGE_KEY !in old(store.items) ==> links == []
    ensures store.items ==
              if STORAGE_KEY in old(store.items) && old(store.items)[STORAGE_KEY] != "" &&
                 parse(old(store.items)[STORAGE_KEY]).None?
              then old(store.items) - {STORAGE_KEY}
              else old(store.items)
  {
    links := LoadList(store, STORAGE_KEY, parse);
  }

  /** `link.tag.toLowerCase() === tag.toLowerCase()`. */
  predicate SameTag(linkTag: string, tag: string) {
    Lower(linkTag) == Lower(tag)
  }

  /**
   * The links `renderLinks(tag)` shows: all of them for the empty tag, otherwise
   * exactly those whose tag equals it up to case, each as often as stored, in order.
   */
  function FilterByTag(links: seq<Link>, tag: string): (r: seq<Link>)
    ensures tag == "" ==> r == links
    ensures IsSubsequence(r, links)
    ensures tag != "" ==> forall l :: multiset(r)[l] == if SameTag(l.tag, tag) then multiset(links)[l] else 0
  {
    if tag == "" then
      assert IsSubsequence(links, links) by {
        FilterAll(links, (l: Link) => true);
      }
      links
    else Filter(links, (l: Link) => SameTag(l.tag, tag))
  }

  /** `renderLinks(tag)`: loads the links and selects those to show. */
  method RenderLinks(store: KeyValueStore, parse: string -> Option<seq<Link>>, tag: string) returns (shown: seq<Link>)
    modifies store
    ensures shown == FilterByTag(StoredList(old(store.items), STORAGE_KEY, parse), tag)
    ensures store.items ==
              if STORAGE_KEY in old(store.items) && old(store.items)[STORAGE_KEY] != "" &&
                 parse(old(store.items)[STORAGE_KEY]).None?
              then old(store.items) - {STORAGE_KEY}
              else old(store.items)
  {
    var links := LoadLinks(store, parse);
    shown := FilterByTag(links, tag);
  }

  /** `links.map((link) => link.tag)`. */
  function Tags(links: seq<Link>): (tags: seq<string>)
    ensures |tags| == |links|
    ensures forall i :: 0 <= i < |links| ==> tags[i] == links[i].tag
  {
    seq(|links|, i requires 0 <= i < |links| => links[i].tag)
  }

  /**
   * `Array.from(new Set(links.map((link) => link.tag)))`: every tag in use exactly
   * once, in the order of first use.
   */
  function DistinctTags(links: seq<Link>): (r: seq<string>)
    ensures forall t :: t in r <==> t in Tags(links)
    ensures forall t :: t in r <==> exists i :: 0 <= i < |links| && links[i].tag == t
    ensures NoDuplicates(r)
    ensures forall i, j :: 0 <= i < j < |r| ==> FirstIndex(Tags(links), r[i]) < FirstIndex(Tags(links), r[j])
  {
    var tags := Tags(links);
    var r := Distinct(tags);
    assert forall t :: t in tags <==> exists i :: 0 <= i < |links| && links[i].tag == t by {
      forall t ensures t in tags <==> exists i :: 0 <= i < |links| && links[i].tag == t {
        if t in tags {
          var i :| 0 <= i < |tags| && tags[i] == t;
          assert links[i].tag == t;
        }
      }
    }
    r
  }

  /** Choosing any offered tag in the filter shows at least one link. */
  lemma OfferedTagShowsLinks(links: seq<Link>, tag: string)
    requires tag in DistinctTags(links) && tag != ""
    ensures FilterByTag(links, tag) != []
  {
    var i :| 0 <= i < |links| && links[i].tag == tag;
    assert multiset(links)[links[i]] > 0;
    assert multiset(FilterByTag(links, tag))[links[i]] > 0;
  }

  /** `refreshTagFilter`: loads the links and lists their distinct tags as filter options. */
  method RefreshTagFilter(store: KeyValueStore, parse: string -> Option<seq<Link>>) returns (options: seq<string>)
    modifies store
    ensures options == DistinctTags(StoredList(old(store.items), STORAGE_KEY, parse))
    ensures store.items ==
              if STORAGE_KEY in old(store.items) && old(store.items)[STORAGE_KEY] != "" &&
                 parse(old(store.items)[STORAGE_KEY]).None?
              then old(store.items) - {STORAGE_KEY}
              else old(store.items)
  {
    var links := LoadLinks(store, parse);
    options := DistinctTags(links);
  }

  /** The raw values of the link form's fields. */
  datatype LinkForm = LinkForm(name: string, url: string, tag: string, note: string)

  /**
   * The check and the record of `handleLinkSubmit`: rejected when the trimmed name,
   * url or tag is empty (an empty note is fine); otherwise the trimmed fields.
   */
  function NewLink(form: LinkForm): (r: Option<Link>)
    ensures r.None? <==> Trim(form.name) == "" || Trim(form.url) == "" || Trim(form.tag) == ""
    ensures r.Some? ==> r.value == Link(Trim(form.name), Trim(form.url), Trim(form.tag), Trim(form.note))
  {
    var name, url, tag, note := Trim(form.name), Trim(form.url), Trim(form.tag), Trim(form.note);
    if name == "" || url == "" || tag == "" then None else Some(Link(name, url, tag, note))
  }

  /** An accepted link, submitted again as it is, is accepted and gives the same link. */
  lemma NewLinkStable(form: LinkForm)
    requires NewLink(form).Some?
    ensures var l := NewLink(form).value; NewLink(LinkForm(l.name, l.url, l.tag, l.note)) == Some(l)
  {
    TrimIdempotent(form.name);
    TrimIdempotent(form.url);
    TrimIdempotent(form.tag);
    TrimIdempotent(form.note);
  }

  /**
   * The save half of `handleLinkSubmit`: load, append the link at the end (no
   * duplicate check), save. When the codec round-trips, the next load returns the
   * old list plus the link.
   */
  method AppendLink(store: KeyValueStore, parse: string -> Option<seq<Link>>,
                    stringify: seq<Link> -> string, link: Link)
    modifies store
    ensures var saved := StoredList(old(store.items), STORAGE_KEY, parse) + [link];
      store.items == old(store.items)[STORAGE_KEY := stringify(saved)] &&
      (RoundTrips(parse, stringify, saved) ==> StoredList(store.items, STORAGE_KEY, parse) == saved)
  {
    var links := LoadLinks(store, parse);
    links := links + [link];
    store.SetItem(STORAGE_KEY, stringify(links));
  }

  /**
   * `handleLinkSubmit`: a rejected form leaves the store alone (it is not even
   * read); an accepted one is appended to the stored list and saved.
   */
  method HandleLinkSubmit(store: KeyValueStore, parse: string -> Option<seq<Link>>,
                          stringify: seq<Link> -> string, form: LinkForm) returns (accepted: bool)
    modifies store
    ensures accepted <==> NewLink(form).Some?
    ensures !accepted ==> store.items == old(store.items)
    ensures accepted ==>
              var saved := StoredList(old(store.items), STORAGE_KEY, parse) + [NewLink(form).value];
              store.items == old(store.items)[STORAGE_KEY := stringify(saved)] &&
              (RoundTrips(parse, stringify, saved) ==> StoredList(store.items, STORAGE_KEY, parse) == saved)
  {
    var link := NewLink(form);
    if link.None? {
      return false;
    }
    AppendLink(store, parse, stringify, link.value);
    accepted := true;
  }

}

/**
 * The upload URL of `handleUploadSubmit` in app.js:
 * `${endpoint without one trailing '/'}/uploads/${slug}/${encodeURIComponent(file name)}`.
 * The slug (time and random digits) is an input.
 */
module Uploads {
  import opened Wrappers
  import opened JsStrings

  /** The code points `encodeURIComponent` leaves as they are. */
  predicate Unreserved(c: char) {
    ('A' <= c <= 'Z') || ('a' <= c <= 'z') || ('0' <= c <= '9') ||
    c == '-' || c == '_' || c == '.' || c == '!' || c == '~' || c == '*' || c == '\'' || c == '(' || c == ')'
  }

  predicate IsUpperHex(c: char) {
    ('0' <= c <= '9') || ('A' <= c <= 'F')
  }

  type Byte = b: int | 0 <= b < 256

  /** The UTF-8 encoding of one code point. */
  function Utf8(c: char): (bytes: seq<Byte>)
    ensures 1 <= |bytes| <= 4
    ensures (c as int < 0x80) <==> |bytes| == 1
  {
    var cp := c as int;
    if cp < 0x80 then [cp]
    else if cp < 0x800 then [0xC0 + cp / 64, 0x80 + cp % 64]
    else if cp < 0x1_0000 then [0xE0 + cp / 4096, 0x80 + (cp / 64) % 64, 0x80 + cp % 64]
    else [0xF0 + cp / 262144, 0x80 + (cp / 4096) % 64, 0x80 + (cp / 64) % 64, 0x80 + cp % 64]
  }

  function HexDigit(d: int): (c: char)
    requires 0 <= d < 16
    ensures IsUpperHex(c)
  {
    "0123456789ABCDEF"[d]
  }

  /** `%XX` for each byte, with upper-case hexadecimal digits. */
  function {:induction false} PercentEncode(bytes: seq<Byte>): (r: string)
    ensures |r| == 3 * |bytes|
    ensures forall i :: 0 <= i < |r| ==> r[i] == '%' || IsUpperHex(r[i])
    decreases |bytes|
  {
    if bytes == [] then []
    else ['%', HexDigit(bytes[0] / 16), HexDigit(bytes[0] % 16)] + PercentEncode(bytes[1..])
  }

  /**
   * `encodeURIComponent(s)`: unreserved code points stay, every other one becomes
   * the percent-escapes of its UTF-8 bytes. The result holds only unreserved code
   * points, '%' and hexadecimal digits, so never a '/'.
   */
  function {:induction false} EncodeUriComponent(s: string): (r: string)
    ensures forall i :: 0 <= i < |r| ==> Unreserved(r[i]) || r[i] == '%' || IsUpperHex(r[i])
    ensures |r| >= |s|
    decreases |s|
  {
    if s == [] then []
    else
      var head := if Unreserved(s[0]) then [s[0]] else PercentEncode(Utf8(s[0]));
      var tail := EncodeUriComponent(s[1..]);
      assert forall i :: 0 <= i < |head| ==> (head + tail)[i] == head[i];
      assert forall i :: |head| <= i < |head| + |tail| ==> (head + tail)[i] == tail[i - |head|];
      head + tail
  }

  /** A name made of unreserved code points only is encoded as itself. */
  lemma {:induction false} EncodeUnreservedIsIdentity(s: string)
    requires forall i :: 0 <= i < |s| ==> Unreserved(s[i])
    ensures EncodeUriComponent(s) == s
    decreases |s|
  {
    if s != [] {
      EncodeUnreservedIsIdentity(s[1..]);
    }
  }

  /** An encoded name never holds a '/', so it stays one path segment. */
  lemma EncodedHasNoSlash(s: string)
    ensures '/' !in EncodeUriComponent(s)
  {
  }

  /** `endpoint.replace(/\/$/, '')`: at most one trailing '/' removed. */
  function StripTrailingSlash(endpoint: string): (r: string)
    ensures r == endpoint || r + "/" == endpoint
    ensures r == endpoint <==> endpoint == [] || endpoint[|endpoint| - 1] != '/'
  {
    if endpoint != [] && endpoint[|endpoint| - 1] == '/' then endpoint[..|endpoint| - 1] else endpoint
  }

  /**
   * The upload URL: the endpoint without one trailing '/', then "/uploads/", the
   * slug, '/', and the encoded file name, which is the last path segment; nothing
   * else lies between them.
   */
  function UploadUrl(endpoint: string, slug: string, fileName: string): (url: string)
    ensures StripTrailingSlash(endpoint) + "/uploads/" + slug + "/" <= url
    ensures |url| == |StripTrailingSlash(endpoint) + "/uploads/" + slug + "/"| + |EncodeUriComponent(fileName)|
    ensures var enc := EncodeUriComponent(fileName);
      |url| > |enc| && url[|url| - |enc|..] == enc && url[|url| - |enc| - 1] == '/' && '/' !in enc
  {
    var base := StripTrailingSlash(endpoint) + "/uploads/" + slug + "/";
    var enc := EncodeUriComponent(fileName);
    EncodedHasNoSlash(fileName);
    assert (base + enc)[|base| - 1] == '/';
    base + enc
  }

  /** An endpoint given with or without one trailing '/' yields the same URL. */
  lemma UploadUrlTrailingSlash(endpoint: string, slug: string, fileName: string)
    requires endpoint == [] || endpoint[|endpoint| - 1] != '/'
    ensures UploadUrl(endpoint + "/", slug, fileName) == UploadUrl(endpoint, slug, fileName)
  {
    assert StripTrailingSlash(endpoint + "/") == endpoint;
  }

  datatype Upload = Upload(url: string, curl: string)

  /**
   * `handleUploadSubmit`: nothing without a file or with a blank endpoint; otherwise
   * the URL for the trimmed endpoint and the matching `curl -T` command.
   */
  function HandleUploadSubmit(fileName: Option<string>, endpointInput: string, slug: string): (r: Option<Upload>)
    ensures r.None? <==> fileName.None? || Trim(endpointInput) == ""
    ensures r.Some? ==> r.value.url == UploadUrl(Trim(endpointInput), slug, fileName.value)
    ensures r.Some? ==> r.value.curl == "curl -T \"" + fileName.value + "\" " + r.value.url
  {
    var endpoint := Trim(endpointInput);
    if fileName.None? || endpoint == "" then None
    else
      var url := UploadUrl(endpoint, slug, fileName.value);
      Some(Upload(url, "curl -T \"" + fileName.value + "\" " + url))
  }

}
