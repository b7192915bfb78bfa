/**
 * The commands of the headless explorer over its JSON file: `list` (filtering),
 * `add` (validate, merge, save), `export` and `import` (validate, merge, save,
 * report). The file system is a `KeyValueStore` keyed by path; reading stdin and
 * `JSON.parse` of the payload are done by the caller, which passes the outcome.
 */
module Cli {
  import opened Wrappers
  import opened JsValues
  import opened JsStrings
  import opened Sequences
  import opened Storage
  import opened Registry

  /** The JSON file next to the script (`__dirname` is not modelled). */
  const STORAGE_PATH := "headless-standalone.json"

  /**
   * `loadEntries`: the parsed file, or the empty list when the file cannot be read
   * or does not parse. Unlike the browser loads, the file is left as it is.
   */
  function LoadEntries(files: map<string, string>, parse: string -> Option<seq<Object>>): (r: seq<Object>)
    ensures STORAGE_PATH !in files ==> r == []
    ensures STORAGE_PATH in files && parse(files[STORAGE_PATH]).None? ==> r == []
    ensures STORAGE_PATH in files && parse(files[STORAGE_PATH]).Some? ==> r == parse(files[STORAGE_PATH]).value
  {
    if STORAGE_PATH !in files then []
    else match parse(files[STORAGE_PATH])
      case Some(entries) => entries
      case None => []
  }

  /** The per-entry test of `listCommand`, with `type`, `status` and `search` taken from args. */
  predicate ListMatches(entry: Object, args: Object) {
    var entryType, status, search := Get(args, "type"), Get(args, "status"), Get(args, "search");
    (!Truthy(entryType) || Get(entry, "type") == entryType) &&
    (!Truthy(status) || Get(entry, "status") == status) &&
    (!Truthy(search) || exists key :: key in entry && Includes(Lower(ToStr(entry[key])), Lower(ToStr(search))))
  }

  /**
   * The rows `listCommand` shows: exactly the stored entries that pass the filters,
   * each as often as stored, in stored order.
   */
  function ListFiltered(entries: seq<Object>, args: Object): (r: seq<Object>)
    ensures IsSubsequence(r, entries)
    ensures forall e :: multiset(r)[e] == if ListMatches(e, args) then multiset(entries)[e] else 0
  {
    Filter(entries, e => ListMatches(e, args))
  }

  /** Without `--type`, `--status` or `--search`, every entry is listed. */
  lemma ListWithoutFilters(entries: seq<Object>, args: Object)
    requires !Truthy(Get(args, "type")) && !Truthy(Get(args, "status")) && !Truthy(Get(args, "search"))
    ensures ListFiltered(entries, args) == entries
  {
    FilterAll(entries, e => ListMatches(e, args));
  }

  /** A value given to `--type` or `--status`, with or without `--search`, lists only entries whose field equals it. */
  lemma ListByField(entries: seq<Object>, args: Object, e: Object)
    requires e in ListFiltered(entries, args)
    ensures Truthy(Get(args, "type")) ==> Get(e, "type") == Get(args, "type")
    ensures Truthy(Get(args, "status")) ==> Get(e, "status") == Get(args, "status")
  {
    assert multiset(ListFiltered(entries, args))[e] > 0;
  }

  datatype ListOutput = NoItems | Table(rows: seq<Object>)

  /** `listCommand`: the message 'Geen items gevonden.' when nothing passes, else the table. */
  function ListCommand(files: KeyValueStore, parse: string -> Option<seq<Object>>, args: Object): (out: ListOutput)
    reads files
    ensures out.NoItems? <==> ListFiltered(LoadEntries(files.items, parse), args) == []
    ensures out.Table? ==> out.rows == ListFiltered(LoadEntries(files.items, parse), args)
  {
    var filtered := ListFiltered(LoadEntries(files.items, parse), args);
    if filtered == [] then NoItems else Table(filtered)
  }

  /**
   * `addCommand`: without a truthy `name` it exits with code 1 and touches nothing;
   * otherwise it merges the argument object into the stored list and saves the result.
   */
  method AddCommand(files: KeyValueStore, parse: string -> Option<seq<Object>>, stringify: seq<Object> -> string,
                    args: Object) returns (exitCode: nat)
    modifies files
    ensures exitCode == if HasName(args) then 0 else 1
    ensures !HasName(args) ==> files.items == old(files.items)
    ensures HasName(args) ==>
              files.items == old(files.items)[STORAGE_PATH := stringify(Merged(LoadEntries(old(files.items), parse), [args]))]
  {
    if !Truthy(Get(args, "name")) {
      return 1;
    }
    var entries := LoadEntries(files.items, parse);
    var next := Merge(entries, [args]);
    files.SetItem(STORAGE_PATH, stringify(next));
    return 0;
  }

  /** Adding keeps the list (an entry with the same identity exists) or appends exactly the normalised arguments. */
  lemma AddAppendsOrKeeps(entries: seq<Object>, args: Object)
    requires HasName(args)
    ensures Merged(entries, [args]) == if Known(entries, args) then entries else entries + [NormalizeEntry(args)]
  {
    assert [args][..0] == [];
  }

  /**
   * The import payload as `importCommand` inspects it: `standalone` is the list held
   * in the `standalone` field, or None when `payload?.standalone` is not an array.
   */
  datatype Payload = Payload(standalone: Option<seq<Object>>)

  /** The payload `exportCommand` writes: `{ standalone: entries }`, always with the list. */
  datatype ExportPayload = ExportPayload(standalone: seq<Object>)

  /** `exportCommand`: `{ standalone: entries }` for the stored entries. */
  function ExportCommand(files: KeyValueStore, parse: string -> Option<seq<Object>>): (p: ExportPayload)
    reads files
    ensures p.standalone == LoadEntries(files.items, parse)
  {
    ExportPayload(LoadEntries(files.items, parse))
  }

  datatype ImportReport = Unreadable | MissingStandalone | Imported(added: int, total: nat)

  /**
   * `importCommand`, given the outcome of parsing stdin (None when it is not JSON).
   * A payload that does not parse or has no `standalone` array is rejected before
   * the store is read or written; otherwise the merge result is saved and the
   * report gives the number of new entries and the new total.
   */
  method ImportCommand(files: KeyValueStore, parse: string -> Option<seq<Object>>, stringify: seq<Object> -> string,
                       input: Option<Payload>) returns (report: ImportReport)
    modifies files
    ensures input.None? ==> report == Unreadable && files.items == old(files.items)
    ensures input.Some? && input.value.standalone.None? ==> report == MissingStandalone && files.items == old(files.items)
    ensures input.Some? && input.value.standalone.Some? ==>
              var existing := LoadEntries(old(files.items), parse);
              var next := Merged(existing, input.value.standalone.value);
              files.items == old(files.items)[STORAGE_PATH := stringify(next)] &&
              report == Imported(|next| - |existing|, |next|)
    ensures report.Imported? ==> report.added >= 0
  {
    if input.None? {
      return Unreadable;
    }
    if input.value.standalone.None? {
      return MissingStandalone;
    }
    var existing := LoadEntries(files.items, parse);
    var next := Merge(existing, input.value.standalone.value);
    files.SetItem(STORAGE_PATH, stringify(next));
    report := Imported(|next| - |existing|, |next|);
  }

  /**
   * Exporting and importing the export back into the same store adds nothing: the
   * merged list is the stored list.
   */
  lemma ExportThenImportAddsNothing(files: KeyValueStore, parse: string -> Option<seq<Object>>)
    ensures var entries := LoadEntries(files.items, parse);
      Merged(entries, ExportCommand(files, parse).standalone) == entries
  {
    MergeSelf(LoadEntries(files.items, parse));
  }

  /**
   * Importing the same payload twice: when the codec gives the saved list back, the
   * second import reads the list the first one saved, and merging adds nothing to
   * it, so it reports no new entries and saves the same list.
   */
  lemma ReimportAddsNothing(items: map<string, string>, parse: string -> Option<seq<Object>>,
                            stringify: seq<Object> -> string, incoming: seq<Object>)
    requires var next := Merged(LoadEntries(items, parse), incoming); parse(stringify(next)) == Some(next)
    ensures var next := Merged(LoadEntries(items, parse), incoming);
      var reread := LoadEntries(items[STORAGE_PATH := stringify(next)], parse);
      reread == next && Merged(reread, incoming) == reread && |Merged(reread, incoming)| - |reread| == 0
  {
    MergeIdempotent(LoadEntries(items, parse), incoming);
  }

}
