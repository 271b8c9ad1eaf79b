/** The bookmark extractor of src/loginitems_plist.rs: it looks up the
    `$objects` entry of a parsed background-items property list and collects
    the byte blobs that may be macOS bookmark (alias) records.

    The pure functions below (`Bookmarks`, `ArrayValues` and their helpers)
    say what the extractor returns; the methods `GetBookmarks` and
    `GetArrayValues` follow the loops of the source and are proved to return
    exactly that. The lemmas state the properties of the specification. */
module LoginItemsPlist {

  import opened Plist

  type Blob = seq<Byte>

  /** The key of the keyed-archive object table. */
  const ObjectsKey: string := "$objects"

  /** Size of a bookmark header; a blob found inside a dictionary element is
      only a candidate when it is at least this long. */
  const MinBookmarkSize: nat := 48

  /** The extractor's one failure: the `$objects` value is not an array
      (an `InvalidInput` error in the source). */
  datatype ExtractError = ExpectedArray

  datatype Result<+T> = Ok(value: T) | Err(error: ExtractError)

  // ---------------------------------------------------------------------
  // Specification

  /** The blobs `f` yields for the elements of `s`, concatenated in order. */
  function FlatMap<T>(s: seq<T>, f: T -> seq<Blob>): seq<Blob>
  {
    if |s| == 0 then [] else FlatMap(s[..|s| - 1], f) + f(s[|s| - 1])
  }

  /** What one entry of a dictionary element contributes: its value when
      that value is data of at least `MinBookmarkSize` bytes; the key is
      ignored. */
  function EntryBookmarks(entry: (string, PlistValue)): seq<Blob>
  {
    match entry.1
    case Data(b) => if |b| < MinBookmarkSize then [] else [b]
    case _ => []
  }

  /** What one element of the `$objects` array contributes: data is taken
      whatever its length, a dictionary contributes its long-enough data
      entries, and everything else (nested arrays included) nothing. */
  function ElementBookmarks(v: PlistValue): seq<Blob>
  {
    match v
    case Data(b) => [b]
    case Dict(entries) => FlatMap(entries, EntryBookmarks)
    case _ => []
  }

  /** The result of `get_array_values`: the blobs of the array's elements in
      order, or nothing when the value is not an array. */
  function ArrayValues(v: PlistValue): seq<Blob>
  {
    match v
    case Array(items) => FlatMap(items, ElementBookmarks)
    case _ => []
  }

  /** The value of the first entry whose key is `$objects`, if any. */
  function FindObjects(entries: seq<(string, PlistValue)>): Option<PlistValue>
  {
    if |entries| == 0 then None
    else if entries[0].0 == ObjectsKey then Some(entries[0].1)
    else FindObjects(entries[1..])
  }

  datatype Option<+T> = None | Some(value: T)

  /** The result of `get_bookmarks` on the top-level dictionary's entries. */
  function Bookmarks(entries: seq<(string, PlistValue)>): Result<seq<Blob>>
  {
    match FindObjects(entries)
    case None => Ok([])
    case Some(v) => if v.Array? then Ok(ArrayValues(v)) else Err(ExpectedArray)
  }

  predicate NoObjectsKey(entries: seq<(string, PlistValue)>)
  {
    forall k :: 0 <= k < |entries| ==> entries[k].0 != ObjectsKey
  }

  // ---------------------------------------------------------------------
  // The extractor

  /** `get_array_values`: walks the array, pushing top-level data
      unconditionally and long-enough data entries of dictionary elements. */
  method GetArrayValues(value: PlistValue) returns (r: Result<seq<Blob>>)
    ensures r == Ok(ArrayValues(value))
  {
    var bookmarkData: seq<Blob> := [];
    match value {
      case Array(items) =>
        for i := 0 to |items|
          invariant bookmarkData == FlatMap(items[..i], ElementBookmarks)
        {
          assert items[..i + 1][..i] == items[..i];
          match items[i] {
            case Data(b) =>
              bookmarkData := bookmarkData + [b];
            case Dict(dict) =>
              for j := 0 to |dict|
                invariant bookmarkData == FlatMap(items[..i], ElementBookmarks) + FlatMap(dict[..j], EntryBookmarks)
              {
                assert dict[..j + 1][..j] == dict[..j];
                var (_, dictData) := dict[j];
                match dictData {
                  case Data(b) =>
                    if |b| < MinBookmarkSize {
                      continue;
                    }
                    bookmarkData := bookmarkData + [b];
                  case _ =>
                    continue;
                }
              }
              assert dict[..|dict|] == dict;
            case _ =>
              continue;
          }
        }
        assert items[..|items|] == items;
      case _ =>
        return Ok(bookmarkData);
    }
    return Ok(bookmarkData);
  }

  /** `get_bookmarks` after the file has been parsed: scans the top-level
      dictionary for `$objects` and returns on the first match. */
  method GetBookmarks(loginItems: seq<(string, PlistValue)>) returns (r: Result<seq<Blob>>)
    ensures r == Bookmarks(loginItems)
  {
    for i := 0 to |loginItems|
      invariant FindObjects(loginItems) == FindObjects(loginItems[i..])
    {
      assert loginItems[i..][1..] == loginItems[i + 1..];
      var (key, value) := loginItems[i];
      if key != ObjectsKey {
        continue;
      }
      match value {
        case Array(_) =>
          var results := GetArrayValues(value);
          return Ok(results.value);
        case _ =>
          return Err(ExpectedArray);
      }
    }
    var emptyBookmark: seq<Blob> := [];
    return Ok(emptyBookmark);
  }

  // ---------------------------------------------------------------------
  // Properties of the `$objects` lookup

  /** `FindObjects` finds nothing exactly when no key is `$objects`. */
  lemma {:induction false} FindObjectsNone(entries: seq<(string, PlistValue)>)
    ensures FindObjects(entries) == None <==> NoObjectsKey(entries)
  {
    if |entries| > 0 {
      FindObjectsNone(entries[1..]);
      assert forall k :: 1 <= k < |entries| ==> entries[k] == entries[1..][k - 1];
    }
  }

  /** A dictionary without `$objects` yields an empty result, not an error. */
  lemma MissingObjectsIsEmpty(entries: seq<(string, PlistValue)>)
    requires NoObjectsKey(entries)
    ensures Bookmarks(entries) == Ok([])
  {
    FindObjectsNone(entries);
  }

  /** Only the first `$objects` entry matters: whatever follows it, the
      result is decided by its value alone. */
  lemma {:induction false} FirstObjectsEntryDecides(pre: seq<(string, PlistValue)>, v: PlistValue,
                                                    post: seq<(string, PlistValue)>)
    requires NoObjectsKey(pre)
    ensures FindObjects(pre + [(ObjectsKey, v)] + post) == Some(v)
    ensures Bookmarks(pre + [(ObjectsKey, v)] + post)
         == if v.Array? then Ok(ArrayValues(v)) else Err(ExpectedArray)
  {
    if |pre| > 0 {
      assert (pre + [(ObjectsKey, v)] + post)[1..] == pre[1..] + [(ObjectsKey, v)] + post;
      assert (pre + [(ObjectsKey, v)] + post)[0] == pre[0];
      FirstObjectsEntryDecides(pre[1..], v, post);
    } else {
      assert (pre + [(ObjectsKey, v)] + post)[0] == (ObjectsKey, v);
    }
  }

  /** `FindObjects` returns the value of the first `$objects` entry. */
  lemma {:induction false} FindObjectsSome(entries: seq<(string, PlistValue)>, v: PlistValue)
    requires FindObjects(entries) == Some(v)
    ensures exists k :: 0 <= k < |entries| && entries[k] == (ObjectsKey, v) && NoObjectsKey(entries[..k])
  {
    if entries[0].0 == ObjectsKey {
      assert entries[0] == (ObjectsKey, v) && NoObjectsKey(entries[..0]);
    } else {
      FindObjectsSome(entries[1..], v);
      var k :| 0 <= k < |entries[1..]| && entries[1..][k] == (ObjectsKey, v) && NoObjectsKey(entries[1..][..k]);
      assert entries[..k + 1] == [entries[0]] + entries[1..][..k];
      assert entries[k + 1] == (ObjectsKey, v) && NoObjectsKey(entries[..k + 1]);
    }
  }

  /** The extractor fails exactly when the first `$objects` entry holds
      something other than an array. */
  lemma ErrorExactlyWhenNotArray(entries: seq<(string, PlistValue)>)
    ensures Bookmarks(entries).Err?
        <==> exists k :: 0 <= k < |entries| && entries[k].0 == ObjectsKey
                         && !entries[k].1.Array? && NoObjectsKey(entries[..k])
  {
    match FindObjects(entries)
    case None =>
      FindObjectsNone(entries);
    case Some(v) =>
      FindObjectsSome(entries, v);
      forall k | 0 <= k < |entries| && entries[k].0 == ObjectsKey && NoObjectsKey(entries[..k])
        ensures entries[k].1 == v
      {
        assert entries == entries[..k] + [(ObjectsKey, entries[k].1)] + entries[k + 1..];
        FirstObjectsEntryDecides(entries[..k], entries[k].1, entries[k + 1..]);
      }
  }

  // ---------------------------------------------------------------------
  // Properties of the array walk

  lemma {:induction false} FlatMapAppend<T>(a: seq<T>, b: seq<T>, f: T -> seq<Blob>)
    ensures FlatMap(a + b, f) == FlatMap(a, f) + FlatMap(b, f)
  {
    if |b| > 0 {
      assert (a + b)[..|a + b| - 1] == a + b[..|b| - 1];
      FlatMapAppend(a, b[..|b| - 1], f);
    } else {
      assert a + b == a;
    }
  }

  lemma {:induction false} FlatMapMembers<T>(s: seq<T>, f: T -> seq<Blob>, x: Blob)
    ensures x in FlatMap(s, f) <==> exists i :: 0 <= i < |s| && x in f(s[i])
  {
    if |s| > 0 {
      var init := s[..|s| - 1];
      FlatMapMembers(init, f, x);
      assert forall i :: 0 <= i < |init| ==> init[i] == s[i];
    }
  }

  /** Order is preserved: the blobs of a concatenation of arrays are the
      blobs of the first followed by those of the second. */
  lemma ArrayValuesAppend(a: seq<PlistValue>, b: seq<PlistValue>)
    ensures ArrayValues(Array(a + b)) == ArrayValues(Array(a)) + ArrayValues(Array(b))
  {
    FlatMapAppend(a, b, ElementBookmarks);
  }

  /** Data directly in the array is kept at its place, whatever its length
      (zero bytes included). */
  lemma TopLevelDataKept(pre: seq<PlistValue>, b: Blob, post: seq<PlistValue>)
    ensures ArrayValues(Array(pre + [Data(b)] + post))
         == ArrayValues(Array(pre)) + [b] + ArrayValues(Array(post))
  {
    FlatMapAppend(pre + [Data(b)], post, ElementBookmarks);
    FlatMapAppend(pre, [Data(b)], ElementBookmarks);
  }

  /** An array element that is neither data nor a dictionary (a nested array,
      a string, a number, ...) contributes nothing. */
  lemma SkippedElement(pre: seq<PlistValue>, e: PlistValue, post: seq<PlistValue>)
    requires !e.Data? && !e.Dict?
    ensures ArrayValues(Array(pre + [e] + post)) == ArrayValues(Array(pre + post))
  {
    FlatMapAppend(pre + [e], post, ElementBookmarks);
    FlatMapAppend(pre, [e], ElementBookmarks);
    FlatMapAppend(pre, post, ElementBookmarks);
  }

  /** A data entry of a dictionary element is kept, at its place, exactly
      when it is at least `MinBookmarkSize` bytes long. */
  lemma DictDataFiltered(pre: seq<(string, PlistValue)>, key: string, b: Blob,
                         post: seq<(string, PlistValue)>)
    ensures |b| < MinBookmarkSize ==>
      ElementBookmarks(Dict(pre + [(key, Data(b))] + post)) == ElementBookmarks(Dict(pre + post))
    ensures |b| >= MinBookmarkSize ==>
      ElementBookmarks(Dict(pre + [(key, Data(b))] + post))
      == ElementBookmarks(Dict(pre)) + [b] + ElementBookmarks(Dict(post))
  {
    FlatMapAppend(pre + [(key, Data(b))], post, EntryBookmarks);
    FlatMapAppend(pre, [(key, Data(b))], EntryBookmarks);
    FlatMapAppend(pre, post, EntryBookmarks);
  }

  /** An entry of a dictionary element whose value is not data contributes
      nothing. */
  lemma SkippedEntry(pre: seq<(string, PlistValue)>, key: string, v: PlistValue,
                     post: seq<(string, PlistValue)>)
    requires !v.Data?
    ensures ElementBookmarks(Dict(pre + [(key, v)] + post)) == ElementBookmarks(Dict(pre + post))
  {
    FlatMapAppend(pre + [(key, v)], post, EntryBookmarks);
    FlatMapAppend(pre, [(key, v)], EntryBookmarks);
    FlatMapAppend(pre, post, EntryBookmarks);
  }

  /** The size boundary is inclusive: 47 bytes are dropped, 48 kept. */
  lemma SizeBoundary(key: string, short: Blob, long: Blob)
    requires |short| == 47 && |long| == 48
    ensures ArrayValues(Array([Dict([(key, Data(short))])])) == []
    ensures ArrayValues(Array([Dict([(key, Data(long))])])) == [long]
    ensures ArrayValues(Array([Data(short)])) == [short]
  {
    var none: seq<(string, PlistValue)> := [];
    DictDataFiltered(none, key, short, none);
    DictDataFiltered(none, key, long, none);
    assert none + [(key, Data(short))] + none == [(key, Data(short))];
    assert none + [(key, Data(long))] + none == [(key, Data(long))];
    assert none + none == none;
    var shortItems := [Dict([(key, Data(short))])];
    assert ElementBookmarks(shortItems[0]) == [];
    assert FlatMap(shortItems, ElementBookmarks) == FlatMap(shortItems[..0], ElementBookmarks) + [];
    assert [Dict([(key, Data(short))])][..0] == [] && [Data(short)][..0] == [];
    assert [Dict([(key, Data(long))])][..0] == [];
  }

  /** Every blob returned is a copy of a data value found in the array,
      either directly or as a long-enough entry of a dictionary element,
      and every such value is returned. */
  lemma ArrayValuesMembers(items: seq<PlistValue>, b: Blob)
    ensures b in ArrayValues(Array(items))
        <==> (exists i :: 0 <= i < |items| && items[i] == Data(b))
             || (exists i, j :: 0 <= i < |items| && items[i].Dict? && 0 <= j < |items[i].entries|
                                && items[i].entries[j].1 == Data(b) && |b| >= MinBookmarkSize)
  {
    FlatMapMembers(items, ElementBookmarks, b);
    forall i | 0 <= i < |items| && items[i].Dict?
      ensures b in ElementBookmarks(items[i])
          <==> exists j :: 0 <= j < |items[i].entries|
                           && items[i].entries[j].1 == Data(b) && |b| >= MinBookmarkSize
    {
      FlatMapMembers(items[i].entries, EntryBookmarks, b);
    }
  }

  /** Top-level data before a dictionary with a qualifying entry comes out
      first. */
  lemma DataBeforeDictionary(a: Blob, key: string, b: Blob)
    requires |b| >= MinBookmarkSize
    ensures Bookmarks([(ObjectsKey, Array([Data(a), Dict([(key, Data(b))])]))]) == Ok([a, b])
  {
    var items := [Data(a), Dict([(key, Data(b))])];
    var none: seq<(string, PlistValue)> := [];
    DictDataFiltered(none, key, b, none);
    assert none + [(key, Data(b))] + none == [(key, Data(b))];
    assert items[..1][..0] == [] && items[..1] == [Data(a)];
    assert FlatMap(items[..1], ElementBookmarks) == [a];
    assert ArrayValues(Array(items)) == [a, b];
  }
}
