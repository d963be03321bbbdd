/** The table from source names to file ids, kept coherent with the disk and with open buffers (core/src/cache.rs). */
module SourceCache {
  import opened Types
  import opened TermCache

  type Timestamp = nat

  /** A source name; paths are normalised. */
  datatype SourceName = Path(path: string, format: InputFormat) | OtherName(index: nat)

  datatype SourceKind = Filesystem(timestamp: Timestamp) | Memory | MemoryClosed

  datatype NameIdEntry = NameIdEntry(id: FileId, source: SourceKind)

  /** The disk at the time of an operation. */
  datatype Disk = Disk(timestamps: map<string, Timestamp>, unreadable: set<string>)

  /** The text of a path only depends on its timestamp. */
  type Contents = (string, Timestamp) -> string

  datatype SourceState = UpToDate(id: FileId) | Stale(timestamp: Timestamp)

  datatype CloseResult = FileIdNotFound | FileNotOpen | FileClosed(closedId: FileId, replacementId: Option<FileId>)

  class SourceCache {
    const contents: Contents
    var files: seq<string>
    var filePaths: map<FileId, SourceName>
    var fileIds: map<SourceName, NameIdEntry>
    /** The names opened in memory and not closed since, with the text last given for them. */
    ghost var open: map<SourceName, string>

    ghost predicate Valid()
      reads this
    {
      && (forall n <- fileIds :: fileIds[n].id < |files| && fileIds[n].id in filePaths && filePaths[fileIds[n].id] == n)
      && (forall n <- open :: n in fileIds)
      && (forall n <- fileIds :: ValidEntry(n))
    }

    ghost predicate ValidEntry(n: SourceName)
      requires n in fileIds && fileIds[n].id < |files|
      reads this
    {
      match fileIds[n].source
      case Filesystem(ts) => n.Path? && n !in open && files[fileIds[n].id] == contents(n.path, ts)
      case Memory => n in open && files[fileIds[n].id] == open[n]
      case MemoryClosed => n !in open
    }

    /** No two names share an id. */
    lemma LiveIdsAreDistinct(n: SourceName, m: SourceName)
      requires Valid() && n in fileIds && m in fileIds && fileIds[n].id == fileIds[m].id
      ensures n == m
    {
      assert filePaths[fileIds[n].id] == filePaths[fileIds[m].id];
    }

    constructor (contents: Contents)
      ensures Valid() && fileIds == map[] && open == map[] && this.contents == contents
    {
      this.contents := contents;
      files, filePaths, fileIds, open := [], map[], map[], map[];
    }

    /** A name that is open, or that was loaded from disk at the timestamp its path still has. */
    predicate Current(n: SourceName, disk: Disk)
      reads this
    {
      && n in fileIds
      && match fileIds[n].source
         case Memory => true
         case MemoryClosed => false
         case Filesystem(ts) => n.Path? && n.path in disk.timestamps && ts == disk.timestamps[n.path]
    }

    /** The id of an up-to-date source, or the timestamp to load it with; nothing on an I/O error. */
    function IdOrNewTimestamp(path: string, format: InputFormat, disk: Disk): (r: Option<SourceState>)
      requires Valid()
      reads this
      ensures
        var n := Path(path, format);
        match r
        case None => !Current(n, disk) && n !in open && path !in disk.timestamps
        case Some(UpToDate(id)) =>
          && Current(n, disk) && fileIds[n].id == id
          && (n in open || (path in disk.timestamps && files[id] == contents(path, disk.timestamps[path])))
        case Some(Stale(ts)) =>
          !Current(n, disk) && n !in open && path in disk.timestamps && ts == disk.timestamps[path]
    {
      var n := Path(path, format);
      var stat := if path in disk.timestamps then Some(Stale(disk.timestamps[path])) else None;
      if n !in fileIds || fileIds[n].source.MemoryClosed? then stat
      else if fileIds[n].source.Memory? then Some(UpToDate(fileIds[n].id))
      else if stat.Some? && fileIds[n].source.timestamp == disk.timestamps[path] then Some(UpToDate(fileIds[n].id))
      else stat
    }

    function IdOf(n: SourceName, disk: Disk): (r: Option<FileId>)
      requires Valid()
      reads this
      ensures r.Some? <==> n in fileIds && (n.Path? ==> Current(n, disk))
      ensures r.Some? ==> fileIds[n].id == r.value
    {
      if n.Path? then
        var state := IdOrNewTimestamp(n.path, n.format, disk);
        if state.Some? && state.value.UpToDate? then Some(state.value.id) else None
      else if n in fileIds then Some(fileIds[n].id)
      else None
    }

    /** Registers a new file for a name. */
    method AddEntry(n: SourceName, text: string, source: SourceKind) returns (id: FileId)
      requires Valid() && !source.MemoryClosed?
      requires source.Filesystem? ==> n.Path? && text == contents(n.path, source.timestamp)
      modifies this
      ensures Valid() && id == |old(files)| && files == old(files) + [text]
      ensures fileIds == old(fileIds)[n := NameIdEntry(id, source)] && filePaths == old(filePaths)[id := n]
      ensures open == if source.Memory? then old(open)[n := text] else old(open) - {n}
    {
      id := |files|;
      files := files + [text];
      filePaths := filePaths[id := n];
      fileIds := fileIds[n := NameIdEntry(id, source)];
      open := if source.Memory? then open[n := text] else open - {n};
    }

    method AddString(n: SourceName, text: string) returns (id: FileId)
      requires Valid()
      modifies this
      ensures Valid() && id == |old(files)| && files == old(files) + [text]
      ensures fileIds == old(fileIds)[n := NameIdEntry(id, Memory)] && open == old(open)[n := text]
      ensures filePaths == old(filePaths)[id := n]
    {
      id := AddEntry(n, text, Memory);
    }

    /** Opens a buffer, reusing the id of the name when it is up to date. */
    method ReplaceString(n: SourceName, text: string, disk: Disk) returns (id: FileId)
      requires Valid()
      modifies this
      ensures Valid() && open == old(open)[n := text]
      ensures n in fileIds && fileIds[n] == NameIdEntry(id, Memory) && id < |files| && files[id] == text
      ensures |old(files)| <= |files| && forall i :: 0 <= i < |old(files)| && i != id ==> files[i] == old(files)[i]
      ensures forall m <- old(fileIds) :: m != n ==> m in fileIds && fileIds[m].id != id
      ensures fileIds == old(fileIds)[n := NameIdEntry(id, Memory)]
      ensures n in old(fileIds) && (n.Path? ==> old(Current(n, disk))) ==>
                id == old(fileIds)[n].id && files == old(files)[id := text]
      ensures !(n in old(fileIds) && (n.Path? ==> old(Current(n, disk)))) ==>
                id == |old(files)| && files == old(files) + [text]
    {
      var found := IdOf(n, disk);
      if found.Some? {
        id := found.value;
        Update(n, text);
      } else {
        id := AddString(n, text);
      }
    }

    /** Gives a new text to a known name, which thereby is open in memory. */
    method Update(n: SourceName, text: string)
      requires Valid() && n in fileIds
      modifies this
      ensures Valid() && open == old(open)[n := text]
      ensures fileIds == old(fileIds)[n := NameIdEntry(old(fileIds)[n].id, Memory)]
      ensures files == old(files)[fileIds[n].id := text] && filePaths == old(filePaths)
      ensures forall m <- fileIds :: m != n ==> fileIds[m].id != fileIds[n].id
    {
      forall m <- fileIds | m != n ensures fileIds[m].id != fileIds[n].id {
        if fileIds[m].id == fileIds[n].id {
          LiveIdsAreDistinct(m, n);
        }
      }
      var id := fileIds[n].id;
      fileIds := fileIds[n := NameIdEntry(id, Memory)];
      files := files[id := text];
      open := open[n := text];
    }

    /**
     The id of a file: that of its open buffer if there is one, that of an unchanged file if its timestamp
     is still the same, and a new one for the text on disk otherwise.
     */
    method GetOrAddFile(path: string, format: InputFormat, disk: Disk) returns (id: Option<FileId>)
      requires Valid()
      modifies this
      ensures Valid() && open == old(open) && (id.Some? ==> Current(Path(path, format), disk))
      ensures
        var n := Path(path, format);
        if old(Current(n, disk)) then
          id == Some(old(fileIds)[n].id) && files == old(files) && fileIds == old(fileIds)
        else if path in disk.timestamps && path !in disk.unreadable then
          && id == Some(|old(files)|) && files == old(files) + [contents(path, disk.timestamps[path])]
          && fileIds == old(fileIds)[n := NameIdEntry(|old(files)|, Filesystem(disk.timestamps[path]))]
        else
          id == None && files == old(files) && fileIds == old(fileIds)
      ensures
        var n := Path(path, format);
        match id
        case Some(i) =>
          && n in fileIds && fileIds[n].id == i && i < |files|
          && (if n in open then files[i] == open[n]
              else path in disk.timestamps && files[i] == contents(path, disk.timestamps[path]))
        case None => n !in open && (path !in disk.timestamps || path in disk.unreadable)
    {
      var state := IdOrNewTimestamp(path, format, disk);
      if state.None? {
        return None;
      }
      match state.value
      case UpToDate(i) => id := Some(i);
      case Stale(ts) =>
        if path in disk.unreadable {
          return None;
        }
        var i := AddEntry(Path(path, format), contents(path, ts), Filesystem(ts));
        id := Some(i);
    }

    /** Closes a buffer and reloads its file, under a new id. */
    method CloseInMemoryFile(path: string, format: InputFormat, disk: Disk) returns (r: CloseResult)
      requires Valid()
      modifies this
      ensures Valid()
      ensures
        var n := Path(path, format);
        match r
        case FileIdNotFound =>
          n !in old(fileIds) && files == old(files) && fileIds == old(fileIds) && open == old(open)
        case FileNotOpen =>
          && n in old(fileIds) && n !in old(open)
          && files == old(files) && fileIds == old(fileIds) && open == old(open)
        case FileClosed(closedId, replacementId) =>
          && n in old(open) && open == old(open) - {n} && closedId == old(fileIds)[n].id
          && (if path in disk.timestamps && path !in disk.unreadable then
                && replacementId == Some(|old(files)|) && closedId != |old(files)|
                && files == old(files) + [contents(path, disk.timestamps[path])]
                && fileIds == old(fileIds)[n := NameIdEntry(|old(files)|, Filesystem(disk.timestamps[path]))]
              else
                && replacementId == None && files == old(files)
                && fileIds == old(fileIds)[n := NameIdEntry(closedId, MemoryClosed)])
    {
      var n := Path(path, format);
      if n !in fileIds {
        return FileIdNotFound;
      }
      if !fileIds[n].source.Memory? {
        return FileNotOpen;
      }
      var closedId := fileIds[n].id;
      fileIds := fileIds[n := fileIds[n].(source := MemoryClosed)];
      open := open - {n};
      var replacementId := GetOrAddFile(path, format, disk);
      r := FileClosed(closedId, replacementId);
    }
  }
}
