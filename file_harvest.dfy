/**
 * How the Windows client collects the local files it offers to the server
 * when files are copied (client/Windows/wf_cliprdr.c): every dropped name
 * (wf_cliprdr_process_filename) and, for a directory, everything below it
 * (wf_cliprdr_traverse_directory) is appended to the parallel arrays
 * file_names/fileDescriptor, which grow when full
 * (wf_cliprdr_array_ensure_capacity, wf_cliprdr_add_to_file_arrays).
 *
 * The file system is a tree of nodes. A directory node's children are the
 * entries FindFirstFile/FindNextFile list for it, in order (on NTFS the
 * first two are "." and ".."). Whether a node can be opened or listed, and
 * its attributes, size and write time, are fields of the node. Paths are not
 * truncated at MAX_PATH here.
 */
module FileHarvest {
  import opened Bytes
  import opened CliprdrPdu
  import opened ClipStream
  import opened Win32

  const FD_WRITESTIME: bv32 := 0x20
  const FD_PROGRESSUI: bv32 := 0x4000

  datatype Node = Node(name: string, attributes: bv32, sizeHigh: u32, sizeLow: u32,
                       hasWriteTime: bool, accessible: bool, children: seq<Node>)

  predicate IsDir(n: Node)
  {
    Bit(n.attributes, FILE_ATTRIBUTE_DIRECTORY)
  }

  /** The listing entries the traversal passes over: "..", and "." when it is a directory. */
  predicate Skipped(n: Node)
  {
    (IsDir(n) && n.name == ".") || n.name == ".."
  }

  function Join(dir: string, name: string): (p: string)
    ensures |p| > |dir| && p[..|dir|] == dir
  {
    dir + ['\\'] + name
  }

  /** One entry of the file arrays: the full name and its descriptor. */
  datatype Harvested = Harvested(path: string, descriptor: Descriptor)

  /**
   * wf_cliprdr_get_file_descriptor for a file it can open: attributes, size
   * and progress are always valid, the write time when it could be read, and
   * the name is the path without its first `pathLen` characters.
   */
  function Describe(path: string, pathLen: nat, n: Node): (d: Descriptor)
    requires pathLen <= |path|
  {
    var flags := FD_ATTRIBUTES | FD_FILESIZE | FD_PROGRESSUI;
    Descriptor(if n.hasWriteTime then flags | FD_WRITESTIME else flags, n.attributes, n.sizeHigh, n.sizeLow, path[pathLen..])
  }

  /**
   * Every descriptor the client offers carries the file's own size, so a
   * stream opened from it never has to ask for the size, and its relative
   * name is what follows the prefix.
   */
  lemma DescribedFilesCarryTheirSize(path: string, pathLen: nat, n: Node)
    requires pathLen <= |path|
    ensures var d := Describe(path, pathLen, n);
            !AsksServerForSize(d) && Join64(d.sizeHigh, d.sizeLow) == Join64(n.sizeHigh, n.sizeLow)
            && path == path[..pathLen] + d.name && (IsDirectory(d) <==> IsDir(n))
  {
    var d := Describe(path, pathLen, n);
    assert Bit(d.flags, FD_FILESIZE) && Bit(d.flags, FD_ATTRIBUTES) by {
      var f := FD_ATTRIBUTES | FD_FILESIZE | FD_PROGRESSUI;
      assert f & FD_FILESIZE == FD_FILESIZE && (f | FD_WRITESTIME) & FD_FILESIZE == FD_FILESIZE;
      assert f & FD_ATTRIBUTES == FD_ATTRIBUTES && (f | FD_WRITESTIME) & FD_ATTRIBUTES == FD_ATTRIBUTES;
    }
  }

  /**
   * The entries collected from the listing of directory `n` (at path `dir`),
   * from position i on. A file contributes its own entry; a directory its own
   * entry followed by everything below it. Below each directory the first
   * `skip` listing entries are passed over.
   */
  function WalkFrom(dir: string, n: Node, i: nat, pathLen: nat, skip: nat): (r: seq<Harvested>)
    requires pathLen <= |dir|
    ensures forall k | 0 <= k < |r| :: |r[k].path| > |dir| && r[k].path[..|dir|] == dir
    decreases n, |n.children| - i, 1
  {
    if i >= |n.children| then [] else Entry(dir, n, i, pathLen, skip) + WalkFrom(dir, n, i + 1, pathLen, skip)
  }

  /** What listing entry i of `n` contributes: nothing if it is passed over, else itself and what lies below it. */
  function Entry(dir: string, n: Node, i: nat, pathLen: nat, skip: nat): (r: seq<Harvested>)
    requires pathLen <= |dir| && i < |n.children|
    ensures forall k | 0 <= k < |r| :: |r[k].path| > |dir| && r[k].path[..|dir|] == dir
    decreases n, |n.children| - i, 0
  {
    var c := n.children[i];
    if Skipped(c) then []
    else
      var p := Join(dir, c.name);
      var below := if IsDir(c) then WalkFrom(p, c, skip, pathLen, skip) else [];
      assert forall k | 0 <= k < |below| :: below[k].path[..|dir|] == dir by {
        forall k | 0 <= k < |below|
          ensures below[k].path[..|dir|] == dir
        {
          assert below[k].path[..|p|] == p;
          assert below[k].path[..|dir|] == p[..|dir|];
        }
      }
      [Harvested(p, Describe(p, pathLen, c))] + below
  }

  /** Whether everything the traversal of `n` reaches can be opened and, for directories, listed. */
  predicate Harvestable(n: Node)
    decreases n, |n.children| + 1, 0
  {
    n.accessible && HarvestableFrom(n, 0)
  }

  predicate HarvestableFrom(n: Node, i: nat)
    decreases n, |n.children| - i, 1
  {
    i >= |n.children| || (EntryHarvestable(n, i) && HarvestableFrom(n, i + 1))
  }

  /** Listing entry i is passed over, or can be opened and, if a directory, harvested. */
  predicate EntryHarvestable(n: Node, i: nat)
    requires i < |n.children|
    decreases n, |n.children| - i, 0
  {
    var c := n.children[i];
    Skipped(c) || (c.accessible && (IsDir(c) ==> Harvestable(c)))
  }

  /*
   * The traversal as written starts its loop with FindNextFile, so the entry
   * FindFirstFile returned is never looked at: it is "." below an NTFS
   * directory, but a drive's root directory and volumes without dot entries
   * list a real file or directory first.
   */

  /** A directory listed without dot entries: the code as written offers none of its files. */
  lemma FirstEntryLostAsWritten(dir: string, pathLen: nat, n: Node, f: Node)
    requires pathLen <= |dir|
    requires n.children == [f] && !Skipped(f) && !IsDir(f)
    ensures WalkFrom(dir, n, 1, pathLen, 1) == []
    ensures WalkFrom(dir, n, 0, pathLen, 0) == [Harvested(Join(dir, f.name), Describe(Join(dir, f.name), pathLen, f))]
  {
  }

  /** Every directory below lists "." first, as NTFS does below the root. */
  predicate DotFirst(n: Node)
    decreases n, |n.children| + 1
  {
    IsDir(n) ==> |n.children| > 0 && Skipped(n.children[0]) && DotFirstFrom(n, 0)
  }

  predicate DotFirstFrom(n: Node, i: nat)
    decreases n, |n.children| - i
  {
    i >= |n.children| || (DotFirst(n.children[i]) && DotFirstFrom(n, i + 1))
  }

  /** Where every listing starts with ".", passing over the first entry loses nothing. */
  lemma {:induction false} SkipFirstHarmlessOnDotFirst(dir: string, n: Node, i: nat, pathLen: nat)
    requires pathLen <= |dir| && DotFirstFrom(n, i)
    ensures WalkFrom(dir, n, i, pathLen, 1) == WalkFrom(dir, n, i, pathLen, 0)
    decreases n, |n.children| - i
  {
    if i < |n.children| {
      var c := n.children[i];
      SkipFirstHarmlessOnDotFirst(dir, n, i + 1, pathLen);
      if !Skipped(c) && IsDir(c) {
        var p := Join(dir, c.name);
        assert DotFirst(c) && DotFirstFrom(c, 0) && DotFirstFrom(c, 1);
        SkipFirstHarmlessOnDotFirst(p, c, 1, pathLen);
        assert WalkFrom(p, c, 0, pathLen, 0) == WalkFrom(p, c, 1, pathLen, 0);
      }
    }
  }

  lemma DotFirstAgreement(dir: string, n: Node, pathLen: nat)
    requires pathLen <= |dir| && IsDir(n) && DotFirst(n)
    ensures WalkFrom(dir, n, 1, pathLen, 1) == WalkFrom(dir, n, 0, pathLen, 0)
  {
    SkipFirstHarmlessOnDotFirst(dir, n, 1, pathLen);
  }

  /** The size wf_cliprdr_array_ensure_capacity gives the arrays before `count` entries are written. */
  function Grown(count: nat, capacity: nat): (c: nat)
    ensures count <= capacity ==> count < c
    ensures c >= capacity
  {
    if count == capacity then (capacity + 1) * 2 else capacity
  }

  class FileArrays {
    var entries: seq<Harvested>
    var capacity: nat

    ghost predicate Valid()
      reads this
    {
      |entries| <= capacity
    }

    /** The empty arrays of a fresh clipboard. */
    constructor ()
      ensures Valid() && entries == [] && capacity == 0
    {
      entries := [];
      capacity := 0;
    }

    /** wf_cliprdr_array_ensure_capacity: full arrays grow to (size + 1) * 2. */
    method EnsureCapacity()
      requires Valid()
      modifies this`capacity
      ensures Valid() && |entries| < capacity && capacity == Grown(|entries|, old(capacity))
    {
      if |entries| == capacity {
        capacity := (capacity + 1) * 2;
      }
    }

    /**
     * wf_cliprdr_add_to_file_arrays: the name and its descriptor are appended,
     * unless the file cannot be opened, in which case nothing is.
     */
    method Add(path: string, pathLen: nat, n: Node) returns (ok: bool)
      requires Valid() && pathLen <= |path|
      modifies this
      ensures Valid() && capacity == Grown(|old(entries)|, old(capacity))
      ensures ok == n.accessible
      ensures entries == old(entries) + if ok then [Harvested(path, Describe(path, pathLen, n))] else []
    {
      EnsureCapacity();
      if !n.accessible {
        return false;
      }
      entries := entries + [Harvested(path, Describe(path, pathLen, n))];
      ok := true;
    }

    /**
     * wf_cliprdr_traverse_directory over every listing entry: it succeeds
     * exactly when everything below can be opened and listed, and then has
     * appended the whole walk; on failure it has appended a prefix of it.
     */
    method Traverse(dir: string, n: Node, pathLen: nat) returns (ok: bool)
      requires Valid() && pathLen <= |dir|
      modifies this
      ensures Valid()
      ensures ok <==> Harvestable(n)
      ensures ok ==> entries == old(entries) + WalkFrom(dir, n, 0, pathLen, 0)
      ensures entries <= old(entries) + WalkFrom(dir, n, 0, pathLen, 0)
      decreases n, 1
    {
      if !n.accessible {
        return false;
      }
      ghost var total := old(entries) + WalkFrom(dir, n, 0, pathLen, 0);
      var i := 0;
      while i < |n.children|
        invariant Valid() && 0 <= i <= |n.children|
        invariant entries + WalkFrom(dir, n, i, pathLen, 0) == total
        invariant HarvestableFrom(n, 0) == HarvestableFrom(n, i)
      {
        ghost var before := entries;
        ok := TraverseEntry(dir, n, i, pathLen);
        if !ok {
          assert entries <= before + Entry(dir, n, i, pathLen, 0) + WalkFrom(dir, n, i + 1, pathLen, 0);
          return;
        }
        i := i + 1;
      }
      ok := true;
    }

    /** One pass of the traversal loop: listing entry i of directory `n`. */
    method TraverseEntry(dir: string, n: Node, i: nat, pathLen: nat) returns (ok: bool)
      requires Valid() && pathLen <= |dir| && i < |n.children|
      modifies this
      ensures Valid()
      ensures ok <==> EntryHarvestable(n, i)
      ensures ok ==> entries == old(entries) + Entry(dir, n, i, pathLen, 0)
      ensures entries <= old(entries) + Entry(dir, n, i, pathLen, 0)
      decreases n, 0
    {
      var c := n.children[i];
      if Skipped(c) {
        return true;
      }
      var p := Join(dir, c.name);
      ok := Add(p, pathLen, c);
      if ok && IsDir(c) {
        ok := Traverse(p, c, pathLen);
      }
    }

    /**
     * wf_cliprdr_process_filename: the prefix cut from every descriptor name
     * ends at the last backslash after the first character (or is the first
     * character alone); the name itself is added and, if it is a directory,
     * everything below it.
     */
    method ProcessFilename(name: string, n: Node) returns (ok: bool, pathLen: nat)
      requires Valid() && |name| > 0
      modifies this
      ensures Valid() && 1 <= pathLen <= |name|
      ensures pathLen >= 2 ==> name[pathLen - 1] == '\\'
      ensures forall k | pathLen <= k < |name| :: name[k] != '\\'
      ensures ok <==> n.accessible && (IsDir(n) ==> Harvestable(n))
      ensures ok ==> entries == old(entries) + [Harvested(name, Describe(name, pathLen, n))]
                                + if IsDir(n) then WalkFrom(name, n, 0, pathLen, 0) else []
    {
      var offset := |name|;
      while offset > 0
        invariant 0 <= offset <= |name|
        invariant forall k | offset < k < |name| :: name[k] != '\\'
      {
        if offset < |name| && name[offset] == '\\' {
          break;
        }
        offset := offset - 1;
      }
      pathLen := offset + 1;
      ok := Add(name, pathLen, n);
      if !ok {
        return;
      }
      if IsDir(n) {
        ok := Traverse(name, n, pathLen);
      }
    }

    /**
     * The FILECONTENTS_SIZE answer of wf_cliprdr_server_file_contents_request
     * for a harvested file: an index past the arrays is ERROR_INTERNAL_ERROR
     * and the response carries no data; otherwise it carries eight bytes that,
     * read as one little-endian 64-bit value (as CliprdrStream_New reads
     * them), are the size in the file's descriptor.
     */
    method SizeReply(listIndex: u32) returns (rc: u32, data: seq<byte>)
      requires Valid()
      ensures rc == CHANNEL_RC_OK <==> listIndex < |entries|
      ensures rc != CHANNEL_RC_OK ==> rc == ERROR_INTERNAL_ERROR && data == []
      ensures rc == CHANNEL_RC_OK ==>
                |data| == 8 &&
                Join64(U32At(data, 4), U32At(data, 0)) ==
                Join64(entries[listIndex].descriptor.sizeHigh, entries[listIndex].descriptor.sizeLow)
    {
      if |entries| <= listIndex {
        return ERROR_INTERNAL_ERROR, [];
      }
      var d := entries[listIndex].descriptor;
      data := LeU32(d.sizeLow) + LeU32(d.sizeHigh);
      U32In([], d.sizeLow, LeU32(d.sizeHigh));
      U32In(LeU32(d.sizeLow), d.sizeHigh, []);
      rc := CHANNEL_RC_OK;
    }
  }

  /*
   * The ANSI branch of wf_cliprdr_get_filedescriptor increments nFiles once
   * more per dropped name, after wf_cliprdr_add_to_file_arrays already has.
   * Since the arrays only grow when nFiles equals their size, nFiles can step
   * past the size and the next entry is written beyond the arrays. A name's
   * `adds` is how many entries it contributes (one, plus its walk).
   */

  /** `k` successive adds from `count` entries: the new count and size, and whether every write stayed inside. */
  function Adds(count: nat, capacity: nat, k: nat): (r: (nat, nat, bool))
    decreases k
  {
    if k == 0 then (count, capacity, true)
    else
      var size := Grown(count, capacity);
      var r := Adds(count + 1, size, k - 1);
      (r.0, r.1, count < size && r.2)
  }

  /** The ANSI loop as written: each name's adds, then one extra increment. */
  function AnsiLoopAsWritten(count: nat, capacity: nat, adds: seq<nat>): (r: (nat, nat, bool))
    decreases |adds|
  {
    if |adds| == 0 then (count, capacity, true)
    else
      var a := Adds(count, capacity, adds[0]);
      var b := AnsiLoopAsWritten(a.0 + 1, a.1, adds[1..]);
      (b.0, b.1, a.2 && b.2)
  }

  /** A directory holding one file, then a plain file: the third entry is written past two slots. */
  lemma DirectoryThenFileOverflowsAsWritten()
    ensures Adds(0, 0, 2) == (2, 2, true)
    ensures !AnsiLoopAsWritten(0, 0, [2, 1]).2
  {
    assert Adds(3, 2, 1) == (4, 2, false);
  }

  /** The loop counting each entry once, as the wide-character branch does. */
  function HarvestLoop(count: nat, capacity: nat, adds: seq<nat>): (r: (nat, nat, bool))
    decreases |adds|
  {
    if |adds| == 0 then (count, capacity, true)
    else
      var a := Adds(count, capacity, adds[0]);
      var b := HarvestLoop(a.0, a.1, adds[1..]);
      (b.0, b.1, a.2 && b.2)
  }

  function Sum(adds: seq<nat>): nat
  {
    if |adds| == 0 then 0 else adds[0] + Sum(adds[1..])
  }

  lemma {:induction false} AddsStayInside(count: nat, capacity: nat, k: nat)
    requires count <= capacity
    ensures var r := Adds(count, capacity, k); r.2 && r.0 == count + k && r.0 <= r.1
    decreases k
  {
    if k > 0 {
      AddsStayInside(count + 1, Grown(count, capacity), k - 1);
    }
  }

  /** Counting each entry once, every write stays inside the arrays and the count is the number of entries. */
  lemma {:induction false} HarvestLoopStaysInside(count: nat, capacity: nat, adds: seq<nat>)
    requires count <= capacity
    ensures var r := HarvestLoop(count, capacity, adds); r.2 && r.0 == count + Sum(adds) && r.0 <= r.1
    decreases |adds|
  {
    if |adds| > 0 {
      AddsStayInside(count, capacity, adds[0]);
      var a := Adds(count, capacity, adds[0]);
      HarvestLoopStaysInside(a.0, a.1, adds[1..]);
    }
  }
}
