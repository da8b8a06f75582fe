/**
 The files as the handlers see them through the C library: names, contents, and open handles that carry a mode.
 A handle names a file, not a path, so it survives deletion and renaming.
 */
module Storage {
  import opened Bytes

  datatype Mode = Reading | Writing

  datatype Handle = Handle(file: nat, mode: Mode)

  datatype Files = Files(
    names: map<string, nat>,
    contents: map<nat, seq<byte>>,
    open: map<nat, Handle>,
    nextFile: nat,
    nextHandle: nat
  )

  ghost predicate WellFormed(fs: Files) {
    && (forall p | p in fs.names :: fs.names[p] < fs.nextFile)
    && (forall h | h in fs.open :: h < fs.nextHandle && fs.open[h].file < fs.nextFile)
  }

  function Content(fs: Files, file: nat): seq<byte> {
    if file in fs.contents then fs.contents[file] else []
  }

  /** The file a path names, or the one that creating it would make. */
  function Target(fs: Files, path: string): nat {
    if path in fs.names then fs.names[path] else fs.nextFile
  }

  /** fopen(path, "wb"): truncates or creates. The new handle is the old `nextHandle`. */
  function OpenWrite(fs: Files, path: string): Files {
    var file := Target(fs, path);
    fs.(names := fs.names[path := file], contents := fs.contents[file := []],
        nextFile := if path in fs.names then fs.nextFile else fs.nextFile + 1,
        open := fs.open[fs.nextHandle := Handle(file, Writing)], nextHandle := fs.nextHandle + 1)
  }

  /** fopen(path, "rb") */
  function OpenRead(fs: Files, path: string): Files
    requires path in fs.names
  {
    fs.(open := fs.open[fs.nextHandle := Handle(fs.names[path], Reading)], nextHandle := fs.nextHandle + 1)
  }

  function Close(fs: Files, h: nat): Files {
    fs.(open := fs.open - {h})
  }

  /** `data` written at `offset`; a gap in front of it reads as zeros, and writing nothing leaves the file alone. */
  function WriteAt(content: seq<byte>, offset: nat, data: seq<byte>): (r: seq<byte>)
    ensures data == [] ==> r == content
    ensures data != [] ==> |r| == if |content| > offset + |data| then |content| else offset + |data|
    ensures data != [] ==> forall i | 0 <= i < |r| ::
      r[i] == if offset <= i < offset + |data| then data[i - offset] else if i < |content| then content[i] else 0
  {
    if data == [] then content
    else
      var padded := if |content| < offset then content + Zeros(offset - |content|) else content;
      padded[..offset] + data + (if |padded| > offset + |data| then padded[offset + |data|..] else [])
  }

  /** How much of `data` fwrite transfers: nothing through a reading handle, else what there is room for. */
  function Writable(fs: Files, h: nat, data: seq<byte>, room: nat): (n: nat)
    ensures n <= |data|
  {
    if h in fs.open && fs.open[h].mode.Writing? then (if |data| <= room then |data| else room) else 0
  }

  /** fseek and fwrite. */
  function Write(fs: Files, h: nat, offset: nat, data: seq<byte>, room: nat): Files {
    var n := Writable(fs, h, data, room);
    if n == 0 then fs
    else
      var file := fs.open[h].file;
      fs.(contents := fs.contents[file := WriteAt(Content(fs, file), offset, data[..n])])
  }

  /** fseek and fread: nothing through a writing handle or past the end. */
  function Read(fs: Files, h: nat, offset: nat, n: nat): (r: seq<byte>)
    ensures |r| <= n
  {
    if h !in fs.open || fs.open[h].mode.Writing? then []
    else
      var content := Content(fs, fs.open[h].file);
      if offset >= |content| then []
      else if offset + n <= |content| then content[offset..offset + n]
      else content[offset..]
  }

  /** unlink */
  function Unlink(fs: Files, path: string): Files {
    fs.(names := fs.names - {path})
  }

  /** rename */
  function Move(fs: Files, from: string, to: string): Files
    requires from in fs.names
  {
    fs.(names := (fs.names - {from})[to := fs.names[from]])
  }
}
