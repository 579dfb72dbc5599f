/** The reducer: list the county files under a prefix, read each one and
    combine them into one document keyed by county name. */
module Reducer {
  import opened Options
  import opened Seqs

  /** A parsed JSON document. Object members are listed in the order the
      runtime enumerates its own keys. A parsed object has each key once
      (`JSON.parse` keeps the last value of a repeated key), so a member
      sequence that repeats a key stands for no parsed file. */
  datatype Json =
    | JNull
    | JBool(b: bool)
    | JNumber(n: real)
    | JString(s: string)
    | JArray(items: seq<Json>)
    | JObject(members: seq<(string, Json)>)

  /** The listing keeps every key except the prefix itself (the folder
      marker object). */
  function ListCountyKeys(keys: seq<string>, prefix: string): (r: seq<string>)
    ensures |r| <= |keys|
  {
    Filter(keys, k => k != prefix)
  }

  /** The listing keeps the order, drops exactly the prefix key and keeps
      every other key as often as it was listed. */
  lemma ListCountyKeysSpec(keys: seq<string>, prefix: string)
    ensures var r := ListCountyKeys(keys, prefix);
            && IsSubsequence(r, keys)
            && (forall k :: k in r <==> k in keys && k != prefix)
            && (forall k :: k != prefix ==> multiset(r)[k] == multiset(keys)[k])
            && (prefix !in keys ==> r == keys)
  {
    var notPrefix := (k: string) => k != prefix;
    assert ListCountyKeys(keys, prefix) == Filter(keys, notPrefix);
    FilterIsSubsequence(keys, notPrefix);
    forall k ensures k in Filter(keys, notPrefix) <==> k in keys && k != prefix {
      FilterMember(keys, notPrefix, k);
    }
    forall k | k != prefix ensures multiset(Filter(keys, notPrefix))[k] == multiset(keys)[k] {
      FilterCount(keys, notPrefix, k);
    }
    if prefix !in keys {
      FilterKeepsAll(keys, notPrefix);
    }
  }

  /** What a file contributes: its first own key with the value under it,
      or nothing when it is null or another falsy value (false, 0, "") or
      has no own keys (true, a non-zero number, [], {}). A string's first
      key is "0", holding its first character; an array's is "0", holding
      its first item. */
  function FirstEntry(file: Json): (r: Option<(string, Json)>)
    ensures r.None? <==> match file
                         case JString(s) => s == []
                         case JArray(items) => items == []
                         case JObject(members) => members == []
                         case _ => true
    ensures file.JObject? && r.Some? ==> r.value == file.members[0]
  {
    match file
    case JString(s) => if s == [] then None else Some(("0", JString([s[0]])))
    case JArray(items) => if items == [] then None else Some(("0", items[0]))
    case JObject(members) => if members == [] then None else Some(members[0])
    case _ => None
  }

  /** The file writes key `k`. */
  predicate Writes(file: Json, k: string) {
    FirstEntry(file).Some? && FirstEntry(file).value.0 == k
  }

  /** The combined document after the files are folded in left to right,
      each one assigning its first entry. */
  function Merge(files: seq<Json>): map<string, Json>
    decreases |files|
  {
    if files == [] then map[]
    else
      var memo := Merge(files[..|files| - 1]);
      match FirstEntry(files[|files| - 1])
      case None => memo
      case Some(entry) => memo[entry.0 := entry.1]
  }

  /** The fold, one file at a time, into a dictionary updated in place. */
  method Reduce(files: seq<Json>) returns (memo: map<string, Json>)
    ensures memo == Merge(files)
  {
    memo := map[];
    var i := 0;
    while i < |files|
      invariant 0 <= i <= |files|
      invariant memo == Merge(files[..i])
    {
      assert files[..i + 1][..i] == files[..i];
      match FirstEntry(files[i]) {
        case None =>
        case Some(entry) =>
          memo := memo[entry.0 := entry.1];
      }
      i := i + 1;
    }
    assert files[..i] == files;
  }

  /** The keys of the combined document are exactly the keys some file
      writes. */
  lemma {:induction false} MergeKeys(files: seq<Json>)
    ensures forall k :: k in Merge(files) <==> exists i :: 0 <= i < |files| && Writes(files[i], k)
    decreases |files|
  {
    if files != [] {
      var prefix := files[..|files| - 1];
      MergeKeys(prefix);
      forall k ensures k in Merge(files) <==> exists i :: 0 <= i < |files| && Writes(files[i], k) {
        if k in Merge(files) && !Writes(files[|files| - 1], k) {
          assert k in Merge(prefix);
          var i :| 0 <= i < |prefix| && Writes(prefix[i], k);
          assert files[i] == prefix[i];
        }
        if exists i :: 0 <= i < |files| && Writes(files[i], k) {
          var i :| 0 <= i < |files| && Writes(files[i], k);
          if i < |prefix| {
            assert prefix[i] == files[i];
          }
        }
      }
    }
  }

  /** Each value comes from the last file that writes its key. */
  lemma {:induction false} MergeLastWriterWins(files: seq<Json>, k: string)
    requires k in Merge(files)
    ensures exists i :: && 0 <= i < |files|
                        && FirstEntry(files[i]) == Some((k, Merge(files)[k]))
                        && forall j :: i < j < |files| ==> !Writes(files[j], k)
    decreases |files|
  {
    var n := |files|;
    var prefix := files[..n - 1];
    if Writes(files[n - 1], k) {
      assert FirstEntry(files[n - 1]) == Some((k, Merge(files)[k]));
    } else {
      assert k in Merge(prefix) && Merge(files)[k] == Merge(prefix)[k];
      MergeLastWriterWins(prefix, k);
      var i :| && 0 <= i < |prefix|
               && FirstEntry(prefix[i]) == Some((k, Merge(prefix)[k]))
               && forall j :: i < j < |prefix| ==> !Writes(prefix[j], k);
      assert files[i] == prefix[i];
      forall j | i < j < n ensures !Writes(files[j], k) {
        if j < n - 1 {
          assert files[j] == prefix[j];
        }
      }
    }
  }

  /** A file that contributes nothing (null, falsy, no own keys) can be
      dropped without changing the combined document. */
  lemma {:induction false} MergeSkipsEmpty(before: seq<Json>, file: Json, after: seq<Json>)
    requires FirstEntry(file).None?
    ensures Merge(before + [file] + after) == Merge(before + after)
    decreases |after|
  {
    if after == [] {
      assert (before + [file] + after)[..|before| + 1 - 1] == before;
      assert before + after == before;
    } else {
      var all := before + [file] + after;
      var rest := before + after;
      var shorter := after[..|after| - 1];
      MergeSkipsEmpty(before, file, shorter);
      assert all[..|all| - 1] == before + [file] + shorter;
      assert rest[..|rest| - 1] == before + shorter;
      assert all[|all| - 1] == rest[|rest| - 1];
    }
  }

  /** Only the first entry of each file matters: members after the first are
      ignored. */
  lemma {:induction false} MergeSeesOnlyFirstEntries(files: seq<Json>, files': seq<Json>)
    requires |files| == |files'|
    requires forall i :: 0 <= i < |files| ==> FirstEntry(files[i]) == FirstEntry(files'[i])
    ensures Merge(files) == Merge(files')
    decreases |files|
  {
    if files != [] {
      MergeSeesOnlyFirstEntries(files[..|files| - 1], files'[..|files'| - 1]);
    }
  }

  /** The reducer's run: `None` when the listing or any read fails, since
      the handler then throws before anything is uploaded. */
  function Consolidate(listing: Option<seq<string>>, prefix: string, read: string -> Option<Json>)
    : (r: Option<map<string, Json>>)
    ensures r.Some? <==> listing.Some? && forall k :: k in ListCountyKeys(listing.value, prefix) ==> read(k).Some?
    ensures r.Some? ==>
              var keys := ListCountyKeys(listing.value, prefix);
              r.value == Merge(seq(|keys|, i requires 0 <= i < |keys| => read(keys[i]).value))
  {
    match listing
    case None => None
    case Some(objects) =>
      var keys := ListCountyKeys(objects, prefix);
      if forall k :: k in keys ==> read(k).Some? then
        Some(Merge(seq(|keys|, i requires 0 <= i < |keys| => read(keys[i]).value)))
      else None
  }
}
