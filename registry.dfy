/**
 * The entry model and the identity-based merge of the headless explorer
 * (`normalizeEntry` and `merge` in headless-explorer.js).
 *
 * An entry is a plain object. Its identity is the triple (name, host || '',
 * type || 'anders'). Merging appends each named incoming entry, normalised,
 * unless the list built so far already holds an entry with its identity; the
 * entry already there wins and is never updated.
 */
module Registry {
  import opened Wrappers
  import opened JsValues
  import opened Sequences

  /** The eight fields of a normalised entry. */
  const FieldNames: set<string> := {"name", "host", "type", "status", "users", "folders", "ports", "note"}

  /** The value a missing or falsy field takes in a normalised entry. */
  function Default(field: string): string {
    if field == "type" then "anders" else if field == "status" then "unknown" else ""
  }

  /**
   * `normalizeEntry`: exactly the eight fields; a truthy input value is kept as it is
   * (no vocabulary check), a falsy or missing one becomes its default.
   */
  function NormalizeEntry(input: Object): (r: Object)
    ensures r.Keys == FieldNames
    ensures forall f :: f in FieldNames && Truthy(Get(input, f)) ==> r[f] == Get(input, f)
    ensures forall f :: f in FieldNames && !Truthy(Get(input, f)) ==> r[f] == Text(Default(f))
  {
    map[
      "name" := Or(Get(input, "name"), ""),
      "host" := Or(Get(input, "host"), ""),
      "type" := Or(Get(input, "type"), "anders"),
      "status" := Or(Get(input, "status"), "unknown"),
      "users" := Or(Get(input, "users"), ""),
      "folders" := Or(Get(input, "folders"), ""),
      "ports" := Or(Get(input, "ports"), ""),
      "note" := Or(Get(input, "note"), "")
    ]
  }

  /** A normalised entry is its own normal form. */
  lemma {:induction false} NormalizeIdempotent(input: Object)
    ensures NormalizeEntry(NormalizeEntry(input)) == NormalizeEntry(input)
  {
    var n := NormalizeEntry(input);
    var nn := NormalizeEntry(n);
    forall f | f in FieldNames ensures nn[f] == n[f] {
      assert Get(n, f) == n[f];
    }
  }

  /** The identity triple the merge compares with `===`. */
  datatype Identity = Identity(name: Value, host: Value, entryType: Value)

  function IdentityOf(e: Object): Identity {
    Identity(Get(e, "name"), Or(Get(e, "host"), ""), Or(Get(e, "type"), "anders"))
  }

  /** `entry?.name` is truthy. */
  predicate HasName(e: Object) {
    Truthy(Get(e, "name"))
  }

  /** Normalising a named entry does not change its identity. */
  lemma NormalizeKeepsIdentity(e: Object)
    requires HasName(e)
    ensures IdentityOf(NormalizeEntry(e)) == IdentityOf(e)
    ensures HasName(NormalizeEntry(e))
  {
    var n := NormalizeEntry(e);
    assert Get(n, "name") == n["name"] && Get(n, "host") == n["host"] && Get(n, "type") == n["type"];
  }

  /** `combined.find(...)` succeeds: some entry of acc has e's identity. */
  predicate Known(acc: seq<Object>, e: Object) {
    exists k :: 0 <= k < |acc| && IdentityOf(acc[k]) == IdentityOf(e)
  }

  /** One turn of the `forEach` in `merge`. */
  function MergeStep(acc: seq<Object>, e: Object): (r: seq<Object>)
    ensures r == acc || r == acc + [NormalizeEntry(e)]
    ensures |r| == |acc| + 1 <==> HasName(e) && !Known(acc, e)
  {
    if !HasName(e) || Known(acc, e) then acc else acc + [NormalizeEntry(e)]
  }

  /**
   * The result of `merge(existing, incoming)`, folding the incoming entries in order.
   * The existing entries are an unchanged prefix, and at most one entry is added per
   * incoming entry.
   */
  function {:induction false} Merged(existing: seq<Object>, incoming: seq<Object>): (r: seq<Object>)
    ensures |existing| <= |r| <= |existing| + |incoming|
    ensures r[..|existing|] == existing
    decreases |incoming|
  {
    if incoming == [] then existing
    else
      var acc := Merged(existing, incoming[..|incoming| - 1]);
      var r := MergeStep(acc, incoming[|incoming| - 1]);
      assert r[..|existing|] == acc[..|existing|];
      r
  }

  /** The named incoming entries, normalised, in their original order. */
  function {:induction false} NamedNormalized(incoming: seq<Object>): seq<Object>
    decreases |incoming|
  {
    if incoming == [] then []
    else
      var last := incoming[|incoming| - 1];
      NamedNormalized(incoming[..|incoming| - 1]) + (if HasName(last) then [NormalizeEntry(last)] else [])
  }

  /**
   * `merge` itself: copy the existing list, then for each incoming entry with a
   * name, look for an entry with the same identity and append the normalised entry
   * when there is none.
   */
  method Merge(entries: seq<Object>, incoming: seq<Object>) returns (combined: seq<Object>)
    ensures combined == Merged(entries, incoming)
  {
    combined := entries;
    for i := 0 to |incoming|
      invariant combined == Merged(entries, incoming[..i])
    {
      var entry := incoming[i];
      assert incoming[..i + 1][..i] == incoming[..i];
      if HasName(entry) {
        var found := Find(combined, entry);
        if found.None? {
          combined := combined + [NormalizeEntry(entry)];
        }
      }
    }
    assert incoming[..|incoming|] == incoming;
  }

  /** `combined.find(...)`: the index of the first entry with e's identity, if any. */
  method Find(combined: seq<Object>, e: Object) returns (found: Option<nat>)
    ensures found.None? <==> !Known(combined, e)
    ensures found.Some? ==> found.value < |combined| && IdentityOf(combined[found.value]) == IdentityOf(e)
    ensures found.Some? ==> forall k :: 0 <= k < found.value ==> IdentityOf(combined[k]) != IdentityOf(e)
  {
    var id := IdentityOf(e);
    for k := 0 to |combined|
      invariant forall j :: 0 <= j < k ==> IdentityOf(combined[j]) != id
    {
      if IdentityOf(combined[k]) == id {
        return Some(k);
      }
    }
    return None;
  }

  lemma KnownKept(acc: seq<Object>, x: Object, e: Object)
    requires Known(acc, e)
    ensures Known(MergeStep(acc, x), e)
  {
    var k :| 0 <= k < |acc| && IdentityOf(acc[k]) == IdentityOf(e);
    assert MergeStep(acc, x)[k] == acc[k];
  }

  /** After a merge, every named incoming entry's identity is present. */
  lemma {:induction false} MergedCoversIncoming(existing: seq<Object>, incoming: seq<Object>)
    ensures forall j :: 0 <= j < |incoming| && HasName(incoming[j]) ==> Known(Merged(existing, incoming), incoming[j])
    decreases |incoming|
  {
    if incoming != [] {
      var n := |incoming| - 1;
      var init, last := incoming[..n], incoming[n];
      var acc := Merged(existing, init);
      var r := Merged(existing, incoming);
      assert r == MergeStep(acc, last);
      MergedCoversIncoming(existing, init);
      forall j | 0 <= j < |incoming| && HasName(incoming[j]) ensures Known(r, incoming[j]) {
        if j < n {
          assert init[j] == incoming[j];
          KnownKept(acc, last, incoming[j]);
        } else if Known(acc, last) {
          KnownKept(acc, last, last);
        } else {
          NormalizeKeepsIdentity(last);
          assert r[|acc|] == NormalizeEntry(last);
        }
      }
    }
  }

  /** Merging entries whose identities are all present already changes nothing. */
  lemma {:induction false} MergedStable(acc: seq<Object>, incoming: seq<Object>)
    requires forall j :: 0 <= j < |incoming| && HasName(incoming[j]) ==> Known(acc, incoming[j])
    ensures Merged(acc, incoming) == acc
    decreases |incoming|
  {
    if incoming != [] {
      var n := |incoming| - 1;
      var init := incoming[..n];
      forall j | 0 <= j < |init| && HasName(init[j]) ensures Known(acc, init[j]) {
        assert init[j] == incoming[j];
      }
      MergedStable(acc, init);
    }
  }

  /** Idempotence: merging the same incoming list a second time adds nothing. */
  lemma MergeIdempotent(existing: seq<Object>, incoming: seq<Object>)
    ensures Merged(Merged(existing, incoming), incoming) == Merged(existing, incoming)
  {
    MergedCoversIncoming(existing, incoming);
    MergedStable(Merged(existing, incoming), incoming);
  }

  /** Merging a list into itself (an export imported into the same store) adds nothing. */
  lemma MergeSelf(entries: seq<Object>)
    ensures Merged(entries, entries) == entries
  {
    forall j | 0 <= j < |entries| && HasName(entries[j]) ensures Known(entries, entries[j]) {
      assert IdentityOf(entries[j]) == IdentityOf(entries[j]);
    }
    MergedStable(entries, entries);
  }

  /** Each entry of s from index n on has an identity that no earlier entry has. */
  predicate FreshFrom(s: seq<Object>, n: nat) {
    forall i, m :: 0 <= i < m < |s| && n <= m ==> IdentityOf(s[i]) != IdentityOf(s[m])
  }

  /**
   * Every entry the merge appends has an identity that no earlier entry of the
   * result has: it is new with respect to the existing entries and to the entries
   * appended before it.
   */
  lemma {:induction false} MergedAppendsFresh(existing: seq<Object>, incoming: seq<Object>)
    ensures FreshFrom(Merged(existing, incoming), |existing|)
    decreases |incoming|
  {
    if incoming != [] {
      var n := |incoming| - 1;
      var init, last := incoming[..n], incoming[n];
      var acc := Merged(existing, init);
      var r := Merged(existing, incoming);
      assert r == MergeStep(acc, last);
      MergedAppendsFresh(existing, init);
      if r != acc {
        assert r == acc + [NormalizeEntry(last)];
        NormalizeKeepsIdentity(last);
        forall i, m | 0 <= i < m < |r| && |existing| <= m ensures IdentityOf(r[i]) != IdentityOf(r[m]) {
          assert r[i] == acc[i];
          if m < |acc| {
            assert r[m] == acc[m];
          } else {
            assert IdentityOf(r[m]) == IdentityOf(last);
          }
        }
      }
    }
  }

  /** No two entries of s share an identity triple. */
  predicate UniqueIdentities(s: seq<Object>) {
    forall i, j :: 0 <= i < j < |s| ==> IdentityOf(s[i]) != IdentityOf(s[j])
  }

  /**
   * A store without duplicate identities keeps none after a merge; with no existing
   * entries, this says the merge removes duplicates within the incoming list.
   */
  lemma MergePreservesUniqueness(existing: seq<Object>, incoming: seq<Object>)
    requires UniqueIdentities(existing)
    ensures UniqueIdentities(Merged(existing, incoming))
  {
    var r := Merged(existing, incoming);
    MergedAppendsFresh(existing, incoming);
    forall i, j | 0 <= i < j < |r| ensures IdentityOf(r[i]) != IdentityOf(r[j]) {
      if j < |existing| {
        assert r[i] == existing[i] && r[j] == existing[j];
      }
    }
  }

  /**
   * Existing wins: the existing entries stay exactly as they were, and no entry with
   * the identity of an existing entry is ever appended.
   */
  lemma MergeExistingWins(existing: seq<Object>, incoming: seq<Object>, k: nat)
    requires k < |existing|
    ensures Merged(existing, incoming)[k] == existing[k]
    ensures forall m :: |existing| <= m < |Merged(existing, incoming)| ==>
              IdentityOf(Merged(existing, incoming)[m]) != IdentityOf(existing[k])
  {
    var r := Merged(existing, incoming);
    assert r[k] == r[..|existing|][k];
    MergedAppendsFresh(existing, incoming);
  }

  /**
   * The appended entries are the normalised forms of named incoming entries, in the
   * order they arrive: an order-preserving subsequence of `NamedNormalized(incoming)`.
   * In particular an incoming entry without a name is never added.
   */
  lemma {:induction false} MergedAppendsInOrder(existing: seq<Object>, incoming: seq<Object>)
    ensures IsSubsequence(Merged(existing, incoming)[|existing|..], NamedNormalized(incoming))
    ensures forall m :: |existing| <= m < |Merged(existing, incoming)| ==> HasName(Merged(existing, incoming)[m])
    decreases |incoming|
  {
    if incoming != [] {
      var n := |incoming| - 1;
      var init, last := incoming[..n], incoming[n];
      var acc := Merged(existing, init);
      var r := Merged(existing, incoming);
      assert r == MergeStep(acc, last);
      MergedAppendsInOrder(existing, init);
      var before := NamedNormalized(init);
      if HasName(last) {
        assert NamedNormalized(incoming) == before + [NormalizeEntry(last)];
        if r == acc {
          SubsequenceAppend(acc[|existing|..], before, NormalizeEntry(last));
        } else {
          assert r[|existing|..] == acc[|existing|..] + [NormalizeEntry(last)];
          SubsequenceSnoc(acc[|existing|..], before, NormalizeEntry(last));
          NormalizeKeepsIdentity(last);
        }
      } else {
        assert NamedNormalized(incoming) == before;
      }
    }
  }

}
