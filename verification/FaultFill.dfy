/** The page-fault handler's read: the bytes of the file go through the inode and the cache into the new page. */
module FaultFill {
  import opened Basics
  import opened Bytes
  import opened BufferCaches
  import opened Ext2Files
  import opened FileReads
  import opened Directories
  import V = VmeModel
  import F = PageFill

  /** The file an entry refers to, by its inode. */
  datatype Files = Files(v: Volume, nodes: map<nat, Inode>)

  ghost predicate HasFile(files: Files, file: V.File) {
    file.File? && file.id in files.nodes && NodeOk(files.v, files.nodes[file.id])
  }

  ghost function Contents(files: Files, file: V.File): seq<int> {
    if HasFile(files, file) then FileBytes(files.v, files.nodes[file.id]) else []
  }

  lemma NoContents(files: Files)
    ensures Contents(files, V.NoFile) == []
  {
  }

  lemma ContentsAreBytes(files: Files, file: V.File)
    ensures AreBytes(Contents(files, file)) && |Contents(files, file)| < U32
  {
    if HasFile(files, file) { FileAreBytes(files.v, files.nodes[file.id]); }
  }

  /** A zeroed page filled by read_all is what the theorems on page contents speak of. */
  method FillPage(reader: Reader, node: Inode, e: V.Entry, va: nat) returns (page: array<int>)
    requires reader.Valid() && NodeOk(reader.v, node) && F.Sound(e) && V.Covers(e, va)
    modifies reader.cache, reader.cache.indices, reader.cache.nodes
    ensures reader.Valid() && fresh(page) && fresh(reader.cache.nodes - old(reader.cache.nodes))
    ensures page[..] == F.Filled(FileBytes(reader.v, node), e, va)
  {
    hide Reader.Valid, NodeOk, FileBytes, VolumeOk, Data, V.Wrap, F.PageOffset, F.Sound, V.Covers, F.Chunk, F.Filled, Overwrite;
    NodeIsIo(reader.v, node);
    F.ChunkInRange(e, va);
    page := new int[PAGE](i => 0);
    assert page[..] == F.Blank();
    var at, n := V.Wrap(e.offset + F.PageOffset(e, va)), F.Chunk(e, va);
    var cnt := reader.ReadAll(NodeIO(node), at, n, page, 0);
    FilledBy(FileBytes(reader.v, node), e, va, cnt);
  }

  lemma ChunkBound(e: V.Entry, va: nat)
    ensures F.Chunk(e, va) <= PAGE
  {
  }

  lemma NothingStored()
    ensures Overwrite(F.Blank(), 0, []) == F.Blank()
  {
  }

  /** What read_all stores is the slice of the file that Filled stores. */
  lemma FilledBy(data: seq<int>, e: V.Entry, va: nat, cnt: int)
    requires var at, n := V.Wrap(e.offset + F.PageOffset(e, va)), F.Chunk(e, va);
             n > 0 && cnt == if at > |data| then -1 else Min(n, |data| - at)
    ensures var at := V.Wrap(e.offset + F.PageOffset(e, va));
            && (cnt <= 0 ==> F.Filled(data, e, va) == F.Blank())
            && (cnt > 0 ==> at + cnt <= |data| && cnt <= PAGE && F.Filled(data, e, va) == Overwrite(F.Blank(), 0, data[at..at + cnt]))
  {
    hide V.Wrap, F.PageOffset, F.Chunk, Overwrite;
    var at, n := V.Wrap(e.offset + F.PageOffset(e, va)), F.Chunk(e, va);
    ChunkBound(e, va);
    NothingStored();
    if cnt > 0 {
      assert Slice(data, at, n) == data[at..at + cnt];
    } else {
      assert Slice(data, at, n) == [];
    }
  }
}
