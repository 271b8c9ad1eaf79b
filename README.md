# Bookmark extraction from macOS background-items property lists

This project models the bookmark extractor of `macos-loginitems`
(`src/loginitems_plist.rs`). The extractor receives a parsed property list.
It looks up the `$objects` entry of the top-level dictionary. It then collects
the byte blobs in that array that may be macOS bookmark (alias) records:

- data elements of the array are always taken;
- data entries of dictionary elements are taken only when at least 48 bytes
  long (the bookmark header size);
- everything else is skipped.

If the dictionary has no `$objects` entry, the result is empty. If that entry
is not an array, the result is an error.

- `plist.dfy` (module `Plist`) defines the property-list value tree. A
  dictionary is a sequence of key/value pairs, because the plist crate keeps
  insertion order. The scalar kinds the extractor never inspects are collapsed
  into `Other`.
- `loginitems_plist.dfy` (module `LoginItemsPlist`) holds three things:
  - the specification functions `Bookmarks` and `ArrayValues`;
  - the methods `GetBookmarks` and `GetArrayValues`, which follow the
    source's `for` loops (`continue` and early `return` included) and are
    proved to return exactly what the specification says;
  - lemmas for the properties the extractor promises.

The model's dictionary may repeat a key, which is more general than the plist
crate's dictionary. This gives the "first `$objects` entry decides" property
real content. Values are immutable Dafny datatypes, so the input tree cannot
be changed by the extractor.

## Model

| member | source | states |
|---|---|---|
| LoginItemsPlist.GetArrayValues | src/loginitems_plist.rs:38-89 | never fails; returns exactly `ArrayValues(value)`: the array's data elements and long-enough dictionary data entries in traversal order, and an empty result when the value is not an array |
| LoginItemsPlist.GetBookmarks | src/loginitems_plist.rs:14-35 | returns exactly `Bookmarks(entries)`: empty without `$objects`, the error when the first `$objects` value is not an array, else the array's extracted blobs |
| LoginItemsPlist.FindObjectsNone | src/loginitems_plist.rs:16-19 | the key scan finds nothing if and only if no key equals `$objects` |
| LoginItemsPlist.MissingObjectsIsEmpty | src/loginitems_plist.rs:16-34 | a dictionary with no `$objects` key gives `Ok` with an empty sequence, not an error |
| LoginItemsPlist.FirstObjectsEntryDecides | src/loginitems_plist.rs:16-31 | the first `$objects` entry alone decides the result, whatever follows it: its array's blobs when it is an array, otherwise the `ExpectedArray` error |
| LoginItemsPlist.FindObjectsSome | src/loginitems_plist.rs:16-24 | a found value belongs to an entry keyed `$objects` with no earlier `$objects` entry |
| LoginItemsPlist.ErrorExactlyWhenNotArray | src/loginitems_plist.rs:20-30 | the result is an error if and only if the first `$objects` entry holds something other than an array |
| LoginItemsPlist.ArrayValuesAppend | src/loginitems_plist.rs:43-84 | array order is preserved: the blobs of `a + b` are those of `a` followed by those of `b` |
| LoginItemsPlist.TopLevelDataKept | src/loginitems_plist.rs:45-48 | a data element of the array is always kept, at its position, whatever its length (0 bytes included) |
| LoginItemsPlist.SkippedElement | src/loginitems_plist.rs:82 | an array element that is neither data nor a dictionary (a nested array included) contributes nothing |
| LoginItemsPlist.DictDataFiltered | src/loginitems_plist.rs:58-68 | a data entry of a dictionary element is kept, at its position in dictionary order, if and only if its length is at least 48 |
| LoginItemsPlist.SkippedEntry | src/loginitems_plist.rs:75 | a dictionary entry whose value is not data contributes nothing |
| LoginItemsPlist.SizeBoundary | src/loginitems_plist.rs:64-68 | a 47-byte data entry in a dictionary element is dropped and a 48-byte one is kept; a 47-byte data element directly in the array is kept |
| LoginItemsPlist.ArrayValuesMembers | src/loginitems_plist.rs:43-84 | a blob is returned if and only if it equals a data element of the array or a data entry of at least 48 bytes in a dictionary element |
| LoginItemsPlist.DataBeforeDictionary | src/loginitems_plist.rs:43-68 | a data element followed by a dictionary with a qualifying data entry yields those two blobs in that order |

## Left out

- Loading the file (`plist::from_file`, binary and XML property-list parsing) is not part of this model. The model starts at the parsed top-level dictionary, and a load failure is not modelled.
- `get_app_loginitems` is not modelled. It only passes the loader's dictionary through.
- The `warn!` diagnostics are not modelled. Their `None` arms (after `as_data` on a value already matched as `Data`) cannot be reached, because the model's `Data` case carries its bytes directly.
- The boxed `std::io::Error` and its message text become the single error value `ExpectedArray`.
- LoginItemsPlist.GetBookmarks: the `?` on the `get_array_values` call has no error path in the model, because `GetArrayValues` is proved never to fail.
- The unit tests depend on fixture files whose contents are not available. So "the Sierra fixture holds exactly one bookmark" is not stated.
- Property-list scalar kinds other than dictionary, array and data are one `Other` case, because the extractor only skips them.
