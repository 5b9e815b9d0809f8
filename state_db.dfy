/**
 * The replay guard: an in-memory list of source transaction hashes (as hex
 * text) that have already been relayed, loaded from and saved to a JSON file.
 */
module StateStore {
  import opened Wrappers

  /** No hash occurs twice in the list. */
  predicate NoDuplicates(s: seq<string>)
  {
    forall i, j :: 0 <= i < j < |s| ==> s[i] != s[j]
  }

  /**
   * The list after `mark_as_processed(h)`: unchanged when h is already
   * recorded, otherwise h appended at the end.
   */
  function Marked(s: seq<string>, h: string): (r: seq<string>)
    ensures h in r
    ensures forall x :: x in r <==> x in s || x == h
    ensures |s| <= |r| <= |s| + 1 && r[..|s|] == s
    ensures h in s ==> r == s
    ensures h !in s ==> r[|s|] == h
    ensures NoDuplicates(s) ==> NoDuplicates(r)
  {
    if h in s then s else s + [h]
  }

  /** Marking the same hash twice is the same as marking it once. */
  lemma MarkedIdempotent(s: seq<string>, h: string)
    ensures Marked(Marked(s, h), h) == Marked(s, h)
  {
  }

  /** In a list without duplicates, a recorded hash occurs exactly once. */
  lemma {:induction false} OccursOnce(s: seq<string>, h: string)
    requires NoDuplicates(s) && h in s
    ensures multiset(s)[h] == 1
  {
    assert s == [s[0]] + s[1..];
    assert NoDuplicates(s[1..]) by {
      forall i, j | 0 <= i < j < |s[1..]| ensures s[1..][i] != s[1..][j] {
        assert s[1..][i] == s[i + 1] && s[1..][j] == s[j + 1];
      }
    }
    if s[0] == h {
      assert h !in s[1..] by {
        forall k | 0 <= k < |s[1..]| ensures s[1..][k] != h {
          assert s[1..][k] == s[k + 1];
        }
      }
      assert multiset(s[1..])[h] == 0;
    } else {
      OccursOnce(s[1..], h);
    }
  }

  /** After `mark_as_processed(h)` on a list without duplicates, h occurs exactly once. */
  lemma MarkedOccursOnce(s: seq<string>, h: string)
    requires NoDuplicates(s)
    ensures multiset(Marked(s, h))[h] == 1
  {
    OccursOnce(Marked(s, h), h);
  }

  /** What reading the state file yields. */
  datatype StateFile =
    | Missing                                    // no file at the path
    | Unreadable                                 // an IOError or a JSON decoding error
    | Parsed(processedHashes: Option<seq<string>>) // a JSON object, with or without the key

  /** The list `_load` returns: the stored list, or empty when there is none. */
  function Loaded(file: StateFile): (hashes: seq<string>)
    ensures file.Parsed? && file.processedHashes.Some? ==> hashes == file.processedHashes.value
    ensures file.Missing? || file.Unreadable? || file == Parsed(None) ==> hashes == []
  {
    match file
    case Parsed(Some(hashes)) => hashes
    case _ => []
  }

  /** The file `_save` writes: a JSON object whose `processed_hashes` is the list. */
  function Written(hashes: seq<string>): StateFile
  {
    Parsed(Some(hashes))
  }

  /** Loading a file that `_save` wrote gives back exactly the saved list. */
  lemma LoadAfterSave(hashes: seq<string>)
    ensures Loaded(Written(hashes)) == hashes
  {
  }

  class StateDB {
    /** The hashes already relayed, in the order they were recorded. */
    var processedHashes: seq<string>
    /** The content of the state file, as `_load` would read it now. */
    ghost var file: StateFile

    /** A restart would load exactly the list held in memory. */
    ghost predicate Durable()
      reads this
    {
      Loaded(file) == processedHashes
    }

    constructor (file: StateFile)
      ensures processedHashes == Loaded(file) && this.file == file
      ensures Durable()
    {
      processedHashes := Loaded(file);
      this.file := file;
    }

    method IsProcessed(txHash: string) returns (b: bool)
      ensures b <==> txHash in processedHashes
    {
      b := txHash in processedHashes;
    }

    /** Records txHash and saves the list, unless it is already recorded. */
    method MarkAsProcessed(txHash: string)
      modifies this
      ensures processedHashes == Marked(old(processedHashes), txHash)
      ensures file == if txHash in old(processedHashes) then old(file) else Written(processedHashes)
      ensures txHash !in old(processedHashes) || old(Durable()) ==> Durable()
    {
      var done := IsProcessed(txHash);
      if !done {
        processedHashes := processedHashes + [txHash];
        file := Written(processedHashes);
      }
    }
  }
}
