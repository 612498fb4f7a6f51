/** The `.cavspatch` v2 data model. */
module PatchTypes {
  import opened Bytes

  const MAX_ENTRIES: nat := 16777216
  const MAX_OPS: nat := 268435456
  const MAX_STRING: nat := 65536

  // ".cavs-staging", ".cavs-journal.json" and ".cavs-journal.json.tmp"
  const STAGING: Data := [46, 99, 97, 118, 115, 45, 115, 116, 97, 103, 105, 110, 103]
  const JOURNAL: Data := [46, 99, 97, 118, 115, 45, 106, 111, 117, 114, 110, 97, 108, 46, 106, 115, 111, 110]
  const JOURNAL_TMP: Data := JOURNAL + [46, 116, 109, 112]

  datatype PatchMode = Artifact | Directory

  datatype EntryKind = FileEntry | DirectoryEntry | SymlinkEntry

  datatype OldFile = OldFile(path: Data, size: U64, blake3: ChunkHash)

  datatype FileOp =
    | CopyOld(oldIdx: U32, oldOffset: U64, len: U64)
    | Inline(len: U64)  // taken from the entry's section, in order

  datatype Strategy =
    | CopyWhole(oldIdx: U32)
    | PlanOps(section: U32, ops: seq<FileOp>)
    | Bsdiff(oldIdx: U32, section: U32)
    | Xdelta3(oldIdx: U32, section: U32)
    | FullData(section: U32)

  datatype NewEntry = NewEntry(path: Data, kind: EntryKind, size: U64, executable: bool,
                               symlinkTarget: Option<Data>, blake3: Option<ChunkHash>,
                               strategy: Option<Strategy>)

  datatype Section = Section(compression: Data, rawLen: U64, rawBlake3: ChunkHash, data: Data)

  datatype Patch = Patch(mode: PatchMode,
                         oldLabel: Data, oldTotalSize: U64,
                         newLabel: Data, newTotalSize: U64,
                         oldFiles: seq<OldFile>, newEntries: seq<NewEntry>,
                         deleted: seq<Data>, sections: seq<Section>)
}
