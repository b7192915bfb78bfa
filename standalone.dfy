/**
 * The browser page of standalone.js: a list of remote entries in `localStorage`,
 * filtered by type, status and a search term, exported as a payload, and extended
 * by a form that appends one entry per submission.
 */
module Standalone {
  import opened Wrappers
  import opened JsStrings
  import opened Sequences
  import opened Storage

  const REMOTE_STORAGE_KEY := "zelfgehoste-remote"

  /**
   * A remote entry as the submit handler builds it. The JavaScript field `type` is
   * `entryType` here, since `type` is a Dafny keyword.
   */
  datatype RemoteEntry = RemoteEntry(name: string, host: string, entryType: string, status: string,
                                     users: string, folders: string, ports: string, note: string)

  /** `loadRemoteEntries`: the stored list; a missing key gives [], and so does an unparseable one, which is removed. */
  method LoadRemoteEntries(store: KeyValueStore, parse: string -> Option<seq<RemoteEntry>>) returns (entries: seq<RemoteEntry>)
    modifies store
    ensures entries == StoredList(old(store.items), REMOTE_STORAGE_KEY, parse)
    ensures REMOTE_STORAGE_KEY !in old(store.items) ==> entries == []
    ensures store.items ==
              if REMOTE_STORAGE_KEY in old(store.items) && old(store.items)[REMOTE_STORAGE_KEY] != "" &&
                 parse(old(store.items)[REMOTE_STORAGE_KEY]).None?
              then old(store.items) - {REMOTE_STORAGE_KEY}
              else old(store.items)
  {
    entries := LoadList(store, REMOTE_STORAGE_KEY, parse);
  }

  /** The status text of a card: 'Aan' for running, 'Uit' for stopped, 'Onbekend' for anything else. */
  function StatusLabel(status: string): (text: string)
    ensures text == "Aan" <==> status == "running"
    ensures text == "Uit" <==> status == "stopped"
    ensures text == "Onbekend" <==> status != "running" && status != "stopped"
  {
    if status == "running" then "Aan" else if status == "stopped" then "Uit" else "Onbekend"
  }

  /** The status icon of a card: green for running, red for stopped, white for anything else. */
  function StatusIcon(status: string): (icon: string)
    ensures icon == "\U{1F7E2}" <==> status == "running"
    ensures icon == "\U{1F534}" <==> status == "stopped"
    ensures icon == "\U{26AA}\U{FE0F}" <==> status != "running" && status != "stopped"
  {
    if status == "running" then "\U{1F7E2}" else if status == "stopped" then "\U{1F534}" else "\U{26AA}\U{FE0F}"
  }

  /** The search term as `filterRemote` uses it: lowercased, then trimmed. */
  function SearchTerm(search: string): string {
    Trim(Lower(search))
  }

  /**
   * The per-entry test of `filterRemote`: an empty type or status filter accepts
   * everything, a non-empty one needs equality; an empty term accepts everything,
   * otherwise the lowercased name or host must contain it.
   */
  predicate RemoteMatches(e: RemoteEntry, typeFilter: string, statusFilter: string, term: string) {
    (typeFilter == "" || e.entryType == typeFilter) &&
    (statusFilter == "" || e.status == statusFilter) &&
    (term == "" || Includes(Lower(e.name), term) || Includes(Lower(e.host), term))
  }

  /** The entries `filterRemote` renders: the matching entries, each as often as stored, in stored order. */
  function FilterRemoteEntries(entries: seq<RemoteEntry>, typeFilter: string, statusFilter: string, search: string)
    : (r: seq<RemoteEntry>)
    ensures IsSubsequence(r, entries)
    ensures forall e :: multiset(r)[e] ==
              if RemoteMatches(e, typeFilter, statusFilter, SearchTerm(search)) then multiset(entries)[e] else 0
  {
    var term := SearchTerm(search);
    Filter(entries, e => RemoteMatches(e, typeFilter, statusFilter, term))
  }

  /** Empty type and status filters and a blank search term show every entry. */
  lemma FilterRemoteShowsAll(entries: seq<RemoteEntry>, search: string)
    requires SpaceBetween(search, 0, |search|)
    ensures FilterRemoteEntries(entries, "", "", search) == entries
  {
    assert SpaceBetween(Lower(search), 0, |search|) by {
      forall k | 0 <= k < |search| ensures IsJsSpace(Lower(search)[k]) {
        assert IsJsSpace(search[k]);
      }
    }
    FilterAll(entries, e => RemoteMatches(e, "", "", SearchTerm(search)));
  }

  /** Lowercasing the search text first does not change the term: the search ignores ASCII case. */
  lemma SearchTermIgnoresCase(search: string)
    ensures SearchTerm(Lower(search)) == SearchTerm(search)
  {
    LowerIdempotent(search);
  }

  /** Normalising the term is idempotent: a term already lowercased and trimmed is used as it is. */
  lemma SearchTermNormalised(search: string)
    ensures SearchTerm(SearchTerm(search)) == SearchTerm(search)
  {
    var l := Lower(search);
    var t := Trim(l);
    LowerIdempotent(search);
    TrimLowered(l);
    assert Lower(t) == t;
    TrimIdempotent(l);
    assert Trim(t) == t;
  }

  /** Trimming a lowercased string leaves a lowercased string. */
  lemma TrimLowered(s: string)
    requires Lower(s) == s
    ensures Lower(Trim(s)) == Trim(s)
  {
    var t := TrimStart(s);
    var r := TrimEnd(t);
    var i := |s| - |t|;
    assert r == t[..|r|] == s[i..i + |r|];
    LowerSlice(s, i, i + |r|);
  }

  /** Every slice of a lowercased string is lowercased. */
  lemma LowerSlice(s: string, i: int, j: int)
    requires Lower(s) == s && 0 <= i <= j <= |s|
    ensures Lower(s[i..j]) == s[i..j]
  {
    forall k | 0 <= k < j - i ensures Lower(s[i..j])[k] == s[i..j][k] {
      assert s[i..j][k] == s[i + k];
      assert Lower(s)[i + k] == LowerChar(s[i + k]);
    }
  }

  /** The export payload: `{ version: '1.0', exportedAt, standalone: entries }` (before JSON and base64). */
  datatype ExportPayload = ExportPayload(version: string, exportedAt: string, standalone: seq<RemoteEntry>)

  function GeneratePayload(entries: seq<RemoteEntry>, exportedAt: string): (p: ExportPayload)
    ensures p.version == "1.0" && p.exportedAt == exportedAt && p.standalone == entries
  {
    ExportPayload("1.0", exportedAt, entries)
  }

  /**
   * `filterRemote`: loads the list, returns the entries to render and the payload,
   * which is built from the whole list, not from the filtered one. The clock value
   * `now` stands for `new Date().toISOString()`.
   */
  method FilterRemote(store: KeyValueStore, parse: string -> Option<seq<RemoteEntry>>,
                      typeFilter: string, statusFilter: string, search: string, now: string)
    returns (shown: seq<RemoteEntry>, payload: ExportPayload)
    modifies store
    ensures shown == FilterRemoteEntries(StoredList(old(store.items), REMOTE_STORAGE_KEY, parse), typeFilter, statusFilter, search)
    ensures payload == GeneratePayload(StoredList(old(store.items), REMOTE_STORAGE_KEY, parse), now)
    ensures store.items ==
              if REMOTE_STORAGE_KEY in old(store.items) && old(store.items)[REMOTE_STORAGE_KEY] != "" &&
                 parse(old(store.items)[REMOTE_STORAGE_KEY]).None?
              then old(store.items) - {REMOTE_STORAGE_KEY}
              else old(store.items)
  {
    var entries := LoadRemoteEntries(store, parse);
    shown := FilterRemoteEntries(entries, typeFilter, statusFilter, search);
    payload := GeneratePayload(entries, now);
  }

  /** The raw values of the submit form's fields. */
  datatype RemoteForm = RemoteForm(name: string, host: string, entryType: string, status: string,
                                   users: string, folders: string, ports: string, note: string)

  /** The entry a submission builds: every text field trimmed; type and status as selected. */
  function NewRemoteEntry(form: RemoteForm): (e: RemoteEntry)
    ensures e.entryType == form.entryType && e.status == form.status
    ensures e.name == Trim(form.name) && e.host == Trim(form.host) && e.note == Trim(form.note)
    ensures e.users == Trim(form.users) && e.folders == Trim(form.folders) && e.ports == Trim(form.ports)
  {
    RemoteEntry(Trim(form.name), Trim(form.host), form.entryType, form.status,
                Trim(form.users), Trim(form.folders), Trim(form.ports), Trim(form.note))
  }

  /** Submitting the fields of a built entry again builds the same entry. */
  lemma NewRemoteEntryStable(form: RemoteForm)
    ensures var e := NewRemoteEntry(form);
      NewRemoteEntry(RemoteForm(e.name, e.host, e.entryType, e.status, e.users, e.folders, e.ports, e.note)) == e
  {
    TrimIdempotent(form.name);
    TrimIdempotent(form.host);
    TrimIdempotent(form.users);
    TrimIdempotent(form.folders);
    TrimIdempotent(form.ports);
    TrimIdempotent(form.note);
  }

  /**
   * The submit handler: load, append the new entry at the end (no duplicate check),
   * save. Earlier entries are unchanged; when the codec round-trips, the next load
   * returns the old list plus the new entry.
   */
  method SubmitRemote(store: KeyValueStore, parse: string -> Option<seq<RemoteEntry>>,
                      stringify: seq<RemoteEntry> -> string, form: RemoteForm)
    modifies store
    ensures var saved := StoredList(old(store.items), REMOTE_STORAGE_KEY, parse) + [NewRemoteEntry(form)];
      store.items == old(store.items)[REMOTE_STORAGE_KEY := stringify(saved)] &&
      (RoundTrips(parse, stringify, saved) ==> StoredList(store.items, REMOTE_STORAGE_KEY, parse) == saved)
  {
    var entries := LoadRemoteEntries(store, parse);
    var newEntry := NewRemoteEntry(form);
    entries := entries + [newEntry];
    store.SetItem(REMOTE_STORAGE_KEY, stringify(entries));
  }

}
