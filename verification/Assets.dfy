/** The asset store: a data file and an info file naming it (src/media.rs). Each file operation is one step. */
module Assets {
  import opened Collections
  import Codec

  type Bytes = seq<Codec.byte>

  const INFO_FILE_SUFFIX := "_info"

  datatype AssetInfo = AssetInfo(file: string, downloadTs: nat, upstreamUrl: string)

  /** The JSON encoding of an info is abstract. */
  datatype InfoCodec = InfoCodec(serialize: AssetInfo -> Option<Bytes>, deserialize: Bytes -> Option<AssetInfo>)

  ghost predicate Faithful(codec: InfoCodec) {
    forall i :: codec.serialize(i).Some? ==> codec.deserialize(codec.serialize(i).value) == Some(i)
  }

  // ---- Names ----

  function InfoName(id: string): string {
    id + INFO_FILE_SUFFIX + ".json"
  }

  function DataName(id: string, extension: Option<string>): string {
    if extension.Some? then id + "." + extension.value else id
  }

  predicate IsDataName(id: string, name: string) {
    name == id || id + "." <= name
  }

  predicate OwnName(id: string, name: string) {
    name == InfoName(id) || IsDataName(id, name)
  }

  lemma DataNames(id: string, name: string)
    ensures IsDataName(id, name) <==> exists extension :: name == DataName(id, extension)
  {
    assert name == id ==> name == DataName(id, None);
    if id + "." <= name {
      assert name == DataName(id, Some(name[|id| + 1..]));
    }
  }

  /** The info name never equals a data name. */
  lemma InfoIsNotData(id: string)
    ensures !IsDataName(id, InfoName(id))
  {
    assert InfoName(id)[|id|] == '_';
    assert (id + ".")[|id|] == '.';
  }

  /** Two ids share a file name in exactly these cases. */
  predicate Clash(a: string, b: string) {
    a == b || ClashOneWay(a, b) || ClashOneWay(b, a)
  }

  predicate ClashOneWay(a: string, b: string) {
    a + "." <= b || b == a + INFO_FILE_SUFFIX || b == InfoName(a)
  }

  predicate Extends(a: string, b: string) {
    |a| < |b| && a <= b && (b[|a|] == '.' || b[|a|] == '_')
  }

  lemma InfoAsData(a: string, b: string)
    requires IsDataName(b, InfoName(a))
    ensures Clash(a, b)
  {
    var n := InfoName(a);
    if n != b {
      assert n == a + "_info.json";
      assert (b + ".")[|b|] == '.' && n[|b|] == '.' && n[..|b|] == b;
      if |b| < |a| {
        assert a[..|b|] == b && a[|b|] == '.';
        assert b + "." <= a;
      } else {
        assert "_info.json"[|b| - |a|] == '.';
        assert |b| - |a| == 5;
        assert b == n[..|b|] == a + "_info";
      }
    }
  }

  lemma BothData(a: string, b: string, n: string)
    requires IsDataName(a, n) && IsDataName(b, n) && |a| <= |b|
    ensures Clash(a, b)
  {
    assert n[..|a|] == a && n[..|b|] == b;
    if |a| < |b| {
      assert (a + ".")[|a|] == '.' && n[|a|] == '.';
      assert b[..|a|] == a && b[|a|] == '.';
    }
  }

  lemma SharedNameIff(a: string, b: string)
    ensures (exists n :: OwnName(a, n) && OwnName(b, n)) <==> Clash(a, b)
  {
    if n :| OwnName(a, n) && OwnName(b, n) {
      if n == InfoName(a) && n == InfoName(b) {
        assert a == n[..|n| - 10] == b;
      } else if n == InfoName(a) {
        InfoAsData(a, b);
      } else if n == InfoName(b) {
        InfoAsData(b, a);
      } else if |a| <= |b| {
        BothData(a, b, n);
      } else {
        BothData(b, a, n);
      }
    }
    if a == b {
      assert OwnName(a, a) && OwnName(b, a);
    } else if ClashOneWay(a, b) {
      ClashShares(a, b);
    } else if ClashOneWay(b, a) {
      ClashShares(b, a);
    }
  }

  lemma ClashShares(a: string, b: string)
    requires ClashOneWay(a, b)
    ensures exists n :: OwnName(a, n) && OwnName(b, n)
  {
    if a + "." <= b {
      assert OwnName(a, b) && OwnName(b, b);
    } else if b == InfoName(a) {
      assert OwnName(a, b) && OwnName(b, b);
    } else {
      assert InfoName(a) == b + ".json";
      assert b + "." <= InfoName(a);
      assert OwnName(a, InfoName(a)) && OwnName(b, InfoName(a));
    }
  }

  /** In particular none is shared when neither id extends the other by a dot or an underscore. */
  lemma UnrelatedIds(a: string, b: string)
    requires a != b && !Extends(a, b) && !Extends(b, a)
    ensures !Clash(a, b)
  {
    if ClashOneWay(a, b) {
      ClashExtends(a, b);
    }
    if ClashOneWay(b, a) {
      ClashExtends(b, a);
    }
  }

  lemma ClashExtends(a: string, b: string)
    requires ClashOneWay(a, b)
    ensures Extends(a, b)
  {
    if a + "." <= b {
      assert b[..|a| + 1] == a + ".";
      assert b[|a|] == '.' && a == b[..|a|];
    }
  }

  // ---- The directory ----

  /** A file of the assets' directory, or one somewhere else. */
  datatype Path = InDir(name: string) | Elsewhere(path: string)

  type Files = map<Path, Bytes>

  class Directory {
    var files: Files
    /** Every state the disk has been in: what a crash can leave. */
    ghost var history: seq<Files>
    const readingWorks: bool
    const removalWorks: bool
    const writingWorks: bool

    constructor (files: Files, readingWorks: bool, removalWorks: bool, writingWorks: bool)
      ensures this.files == files && history == []
      ensures this.readingWorks == readingWorks && this.removalWorks == removalWorks
      ensures this.writingWorks == writingWorks
    {
      this.files, history := files, [];
      this.readingWorks, this.removalWorks, this.writingWorks := readingWorks, removalWorks, writingWorks;
    }

    method Read(p: Path) returns (r: Option<Bytes>)
      ensures r.Some? ==> p in files && r.value == files[p]
      ensures readingWorks && p in files ==> r.Some?
    {
      if p !in files {
        return None;
      }
      if !readingWorks {
        if * {
          return None;
        }
      }
      return Some(files[p]);
    }

    method Write(p: Path, content: Bytes) returns (ok: bool)
      modifies this
      ensures writingWorks ==> ok
      ensures files == if ok then old(files)[p := content] else old(files)
      ensures history == old(history) + [files]
    {
      ok := writingWorks;
      if !ok {
        ok := *;
      }
      if ok {
        files := files[p := content];
      }
      history := history + [files];
    }

    method Remove(p: Path) returns (ok: bool)
      modifies this
      ensures ok ==> p in old(files)
      ensures removalWorks && p in old(files) ==> ok
      ensures files == if ok then old(files) - {p} else old(files)
      ensures history == old(history) + [files]
    {
      ok := p in files;
      if ok && !removalWorks {
        ok := *;
      }
      if ok {
        files := files - {p};
      }
      history := history + [files];
    }

    method Rename(src: Path, dst: Path) returns (ok: bool)
      modifies this
      ensures ok ==> src in old(files)
      ensures writingWorks && src in old(files) ==> ok
      ensures files == if ok then (old(files) - {src})[dst := old(files)[src]] else old(files)
      ensures history == old(history) + [files]
    {
      ok := src in files;
      if ok && !writingWorks {
        ok := *;
      }
      if ok {
        files := (files - {src})[dst := files[src]];
      }
      history := history + [files];
    }
  }

  // ---- States of the disk ----

  function InfoOf(files: Files, id: string, codec: InfoCodec): Option<AssetInfo> {
    if InDir(InfoName(id)) in files then codec.deserialize(files[InDir(InfoName(id))]) else None
  }

  /** A readable info names an existing data file of its asset. */
  predicate Consistent(files: Files, id: string, codec: InfoCodec) {
    var info := InfoOf(files, id, codec);
    info.Some? ==> IsDataName(id, info.value.file) && InDir(info.value.file) in files
  }

  predicate OwnPath(id: string, p: Path) {
    p.InDir? && OwnName(id, p.name)
  }

  predicate OwnData(id: string, p: Path) {
    p.InDir? && IsDataName(id, p.name)
  }

  /** The data file that the info names. */
  function Named(files: Files, id: string, codec: InfoCodec): set<Path> {
    var info := InfoOf(files, id, codec);
    if info.Some? then {InDir(info.value.file)} else {}
  }

  /** No file but those of the asset and the given ones has changed. */
  ghost predicate Untouched(now: Files, start: Files, id: string, others: set<Path>) {
    forall p: Path :: !OwnPath(id, p) && p !in others ==>
      (p in now <==> p in start) && (p in now && p in start ==> now[p] == start[p])
  }

  /** Every state since `from` is consistent and leaves all other files alone. */
  ghost predicate Kept(history: seq<Files>, from: nat, start: Files, id: string, codec: InfoCodec, others: set<Path>) {
    forall i :: from <= i < |history| ==> Consistent(history[i], id, codec) && Untouched(history[i], start, id, others)
  }

  function DataFiles(files: Files, id: string): set<Path> {
    set p | p in files && OwnData(id, p)
  }

  /** An asset whose names are disjoint from those of the changed asset stays as it is. */
  lemma OthersUnchanged(now: Files, start: Files, id: string, moved: set<Path>, other: string, codec: InfoCodec)
    requires Untouched(now, start, id, moved) && !Clash(id, other) && forall p :: p in moved ==> !OwnPath(other, p)
    ensures InfoOf(now, other, codec) == InfoOf(start, other, codec)
    ensures Consistent(now, other, codec) == Consistent(start, other, codec)
    ensures DataFiles(now, other) == DataFiles(start, other)
    ensures forall p :: p in DataFiles(now, other) ==> now[p] == start[p]
  {
    SharedNameIff(id, other);
    assert OwnName(other, InfoName(other));
  }

  /** The data file holds `data` and the info describes it. */
  ghost predicate Stored(files: Files, id: string, codec: InfoCodec, info: AssetInfo, data: Bytes) {
    && IsDataName(id, info.file) && InDir(info.file) in files && files[InDir(info.file)] == data
    && InfoOf(files, id, codec) == Some(info)
  }

  /** The version that was there is gone: its data file can only be there under the new name. */
  ghost predicate OldGone(now: Files, start: Files, id: string, codec: InfoCodec, extension: Option<string>) {
    var info := InfoOf(start, id, codec);
    info.Some? && InDir(info.value.file) in now ==> info.value.file == DataName(id, extension)
  }

  /** The data files after a replacement: the new one instead of the one that was named. */
  function Replaced(files: Files, id: string, codec: InfoCodec, name: string): set<Path> {
    DataFiles(files, id) - Named(files, id, codec) + {InDir(name)}
  }

  /** So there is exactly one data file afterwards iff there was no other before. */
  lemma OneDataFileIff(files: Files, id: string, codec: InfoCodec, name: string)
    ensures Replaced(files, id, codec, name) == {InDir(name)} <==>
            DataFiles(files, id) <= Named(files, id, codec) + {InDir(name)}
  {
  }

  lemma OldIsGone(start: Files, mid: Files, now: Files, id: string, codec: InfoCodec, extension: Option<string>)
    requires Consistent(start, id, codec) && DataFiles(mid, id) == DataFiles(start, id) - Named(start, id, codec)
    requires DataFiles(now, id) <= DataFiles(mid, id) + {InDir(DataName(id, extension))}
    ensures OldGone(now, start, id, codec, extension)
  {
    var info := InfoOf(start, id, codec);
    if info.Some? && InDir(info.value.file) in now {
      assert InDir(info.value.file) in DataFiles(now, id);
    }
  }

  lemma AfterMove(start: Files, moved: Files, id: string, src: Path, name: string)
    requires src in start && !OwnPath(id, src) && IsDataName(id, name)
    requires moved == (start - {src})[InDir(name) := start[src]]
    ensures Untouched(moved, start, id, {src})
    ensures DataFiles(moved, id) == DataFiles(start, id) + {InDir(name)}
  {
  }

  lemma UntouchedTransitive(a: Files, b: Files, c: Files, id: string, others: set<Path>)
    requires Untouched(b, a, id, others) && Untouched(c, b, id, {})
    ensures Untouched(c, a, id, others)
  {
  }

  // ---- The manager ----

  datatype MediaError = Removed | AssetIdNotSpecified | Upstream | SerdeJson | Io

  datatype Download = Download(data: Bytes, fileExtension: Option<string>, upstreamUrl: string)

  datatype Upload = Upload(fileExtension: Option<string>, upstreamUrl: string)

  /** What the server says; `upToDate` is `None` when the check fails. */
  datatype Server = Server(upToDate: Option<bool>, wasRemoved: bool, download: Result<Download, MediaError>)

  class AssetManager {
    const dir: Directory
    const codec: InfoCodec
    const assetId: Option<string>

    constructor (dir: Directory, codec: InfoCodec, assetId: Option<string>)
      ensures this.dir == dir && this.codec == codec && this.assetId == assetId
    {
      this.dir, this.codec, this.assetId := dir, codec, assetId;
    }

    method ReadInfo() returns (r: Option<AssetInfo>)
      ensures r.Some? ==> assetId.Some? && r == InfoOf(dir.files, assetId.value, codec)
      ensures assetId.Some? && dir.readingWorks ==> r == InfoOf(dir.files, assetId.value, codec)
    {
      if assetId.None? {
        return None;
      }
      var content := dir.Read(InDir(InfoName(assetId.value)));
      if content.None? {
        return None;
      }
      return codec.deserialize(content.value);
    }

    /** The info goes first; the asset stays consistent exactly if the info is gone or the data is kept. */
    method DeleteAssetAndInfo(info: AssetInfo) returns (ghost infoGone: bool, ghost dataGone: bool)
      requires assetId.Some? && InfoOf(dir.files, assetId.value, codec) == Some(info)
      requires Consistent(dir.files, assetId.value, codec)
      modifies dir
      ensures dir.removalWorks ==> infoGone && dataGone
      ensures dir.files == old(dir.files) - (if infoGone then {InDir(InfoName(assetId.value))} else {})
                                          - (if dataGone then {InDir(info.file)} else {})
      ensures Consistent(dir.files, assetId.value, codec) <==> infoGone || !dataGone
      ensures |dir.history| == |old(dir.history)| + 2 && old(dir.history) <= dir.history
      ensures Last(dir.history) == dir.files
      ensures Consistent(dir.history[|old(dir.history)|], assetId.value, codec)
      ensures Untouched(dir.history[|old(dir.history)|], old(dir.files), assetId.value, {})
      ensures Untouched(dir.files, old(dir.files), assetId.value, {})
    {
      InfoIsNotData(assetId.value);
      infoGone := dir.Remove(InDir(InfoName(assetId.value)));
      dataGone := dir.Remove(InDir(info.file));
    }

    /** Deletes what is there before a new version is stored, or after the asset was removed upstream. */
    method DeleteExisting()
      requires assetId.Some? && Consistent(dir.files, assetId.value, codec)
      modifies dir
      ensures dir.files.Keys <= old(dir.files).Keys && forall p :: p in dir.files ==> dir.files[p] == old(dir.files)[p]
      ensures Untouched(dir.files, old(dir.files), assetId.value, {})
      ensures old(dir.history) <= dir.history
      ensures dir.removalWorks ==> Consistent(dir.files, assetId.value, codec)
      ensures dir.removalWorks ==>
                Kept(dir.history, |old(dir.history)|, old(dir.files), assetId.value, codec, {})
      ensures dir.readingWorks && dir.removalWorks ==>
                DataFiles(dir.files, assetId.value) == DataFiles(old(dir.files), assetId.value) -
                                                       Named(old(dir.files), assetId.value, codec)
    {
      var info := ReadInfo();
      if info.Some? {
        ghost var infoGone, dataGone := DeleteAssetAndInfo(info.value);
        InfoIsNotData(assetId.value);
      }
    }

    method WriteInfo(info: AssetInfo) returns (r: Result<(), MediaError>)
      requires assetId.Some? && Faithful(codec)
      requires IsDataName(assetId.value, info.file) && InDir(info.file) in dir.files
      modifies dir
      ensures old(dir.history) <= dir.history
      ensures |dir.history| <= |old(dir.history)| + 1
        && (|dir.history| > |old(dir.history)| ==> Last(dir.history) == dir.files)
      ensures codec.serialize(info).None? ==> r == Err(SerdeJson)
      ensures codec.serialize(info).Some? ==> r == Ok(()) || (r == Err(Io) && !dir.writingWorks)
      ensures r.Ok? ==> InfoOf(dir.files, assetId.value, codec) == Some(info)
      ensures r.Ok? ==> Consistent(dir.files, assetId.value, codec)
      ensures r.Err? ==> dir.files == old(dir.files)
      ensures Untouched(dir.files, old(dir.files), assetId.value, {})
      ensures DataFiles(dir.files, assetId.value) == DataFiles(old(dir.files), assetId.value)
      ensures forall p :: p in DataFiles(dir.files, assetId.value) ==> dir.files[p] == old(dir.files)[p]
    {
      InfoIsNotData(assetId.value);
      var serialized := codec.serialize(info);
      if serialized.None? {
        return Err(SerdeJson);
      }
      var ok := dir.Write(InDir(InfoName(assetId.value)), serialized.value);
      return if ok then Ok(()) else Err(Io);
    }

    /** The data goes first; a readable info of before keeps naming an existing file meanwhile. */
    method WriteInfoAndAsset(info: AssetInfo, asset: Bytes) returns (r: Result<(), MediaError>)
      requires assetId.Some? && Faithful(codec) && IsDataName(assetId.value, info.file)
      modifies dir
      ensures old(dir.history) <= dir.history
      ensures Consistent(old(dir.files), assetId.value, codec) ==>
                Consistent(dir.files, assetId.value, codec) &&
                Kept(dir.history, |old(dir.history)|, old(dir.files), assetId.value, codec, {})
      ensures Untouched(dir.files, old(dir.files), assetId.value, {})
      ensures dir.writingWorks ==> r == if codec.serialize(info).Some? then Ok(()) else Err(SerdeJson)
      ensures r.Ok? ==> Stored(dir.files, assetId.value, codec, info, asset)
      ensures DataFiles(dir.files, assetId.value) <= DataFiles(old(dir.files), assetId.value) + {InDir(info.file)}
      ensures r.Ok? ==> DataFiles(dir.files, assetId.value) ==
                        DataFiles(old(dir.files), assetId.value) + {InDir(info.file)}
    {
      InfoIsNotData(assetId.value);
      var ok := dir.Write(InDir(info.file), asset);
      if !ok {
        return Err(Io);
      }
      assert InDir(info.file) in DataFiles(dir.files, assetId.value);
      r := WriteInfo(info);
    }

    /** Fetches a new version and replaces what is there. */
    method DownloadAsset(download: Result<Download, MediaError>, now: nat) returns (r: Result<string, MediaError>)
      requires Faithful(codec) && (assetId.Some? ==> Consistent(dir.files, assetId.value, codec))
      modifies dir
      ensures download.Err? || assetId.None? ==>
        r == (if download.Err? then Err(download.error) else Err(AssetIdNotSpecified))
        && dir.files == old(dir.files) && dir.history == old(dir.history)
      ensures download.Ok? && assetId.Some? && dir.writingWorks ==>
                r == var name := DataName(assetId.value, download.value.fileExtension);
                     if codec.serialize(AssetInfo(name, now, download.value.upstreamUrl)).Some? then Ok(name)
                     else Err(SerdeJson)
      ensures assetId.Some? ==> Untouched(dir.files, old(dir.files), assetId.value, {})
      ensures old(dir.history) <= dir.history
      ensures assetId.Some? && dir.removalWorks ==>
                Consistent(dir.files, assetId.value, codec) &&
                Kept(dir.history, |old(dir.history)|, old(dir.files), assetId.value, codec, {})
      ensures download.Ok? && assetId.Some? && dir.removalWorks && dir.readingWorks ==>
                OldGone(dir.files, old(dir.files), assetId.value, codec, download.value.fileExtension)
      ensures r.Ok? ==> r.value == DataName(assetId.value, download.value.fileExtension)
      ensures r.Ok? ==> Stored(dir.files, assetId.value, codec,
                               AssetInfo(r.value, now, download.value.upstreamUrl), download.value.data)
      ensures r.Ok? && dir.removalWorks && dir.readingWorks ==>
                DataFiles(dir.files, assetId.value) == Replaced(old(dir.files), assetId.value, codec, r.value)
    {
      if download.Err? {
        return Err(download.error);
      }
      if assetId.None? {
        return Err(AssetIdNotSpecified);
      }
      DeleteExisting();
      ghost var mid := dir.files;
      var dataFileName := DataName(assetId.value, download.value.fileExtension);
      DataNames(assetId.value, dataFileName);
      var info := AssetInfo(dataFileName, now, download.value.upstreamUrl);
      var written := WriteInfoAndAsset(info, download.value.data);
      if dir.removalWorks && dir.readingWorks {
        OldIsGone(old(dir.files), mid, dir.files, assetId.value, codec, download.value.fileExtension);
      }
      return if written.Ok? then Ok(dataFileName) else Err(written.error);
    }

    /** The data arrives by a move, again before the info is written. */
    method MoveIn(src: Path, info: AssetInfo) returns (r: Result<(), MediaError>)
      requires assetId.Some? && Faithful(codec) && IsDataName(assetId.value, info.file)
      requires !OwnPath(assetId.value, src)
      modifies dir
      ensures old(dir.history) <= dir.history
      ensures Consistent(old(dir.files), assetId.value, codec) ==>
                Consistent(dir.files, assetId.value, codec) &&
                Kept(dir.history, |old(dir.history)|, old(dir.files), assetId.value, codec, {src})
      ensures Untouched(dir.files, old(dir.files), assetId.value, {src})
      ensures dir.writingWorks && src in old(dir.files) ==>
                r == if codec.serialize(info).Some? then Ok(()) else Err(SerdeJson)
      ensures src !in old(dir.files) ==> r == Err(Io)
      ensures r.Ok? ==> src in old(dir.files) && src !in dir.files
      ensures r.Ok? ==> Stored(dir.files, assetId.value, codec, info, old(dir.files)[src])
      ensures DataFiles(dir.files, assetId.value) <= DataFiles(old(dir.files), assetId.value) + {InDir(info.file)}
      ensures r.Ok? ==> DataFiles(dir.files, assetId.value) ==
                        DataFiles(old(dir.files), assetId.value) + {InDir(info.file)}
    {
      InfoIsNotData(assetId.value);
      var moved := dir.Rename(src, InDir(info.file));
      if !moved {
        return Err(Io);
      }
      ghost var between := dir.files;
      AfterMove(old(dir.files), between, assetId.value, src, info.file);
      r := WriteInfo(info);
      UntouchedTransitive(old(dir.files), between, dir.files, assetId.value, {src});
    }

    /** Moves an uploaded file into the directory, in place of what is there. */
    method UploadAsset(src: Path, upload: Result<Upload, MediaError>, now: nat) returns (r: Result<string, MediaError>)
      requires Faithful(codec) && (assetId.Some? ==> Consistent(dir.files, assetId.value, codec))
      requires assetId.Some? ==> !OwnPath(assetId.value, src)
      modifies dir
      ensures upload.Err? || assetId.None? ==>
        r == (if upload.Err? then Err(upload.error) else Err(AssetIdNotSpecified))
        && dir.files == old(dir.files) && dir.history == old(dir.history)
      ensures upload.Ok? && assetId.Some? && dir.writingWorks && src in old(dir.files) ==>
                r == var name := DataName(assetId.value, upload.value.fileExtension);
                     if codec.serialize(AssetInfo(name, now, upload.value.upstreamUrl)).Some? then Ok(name)
                     else Err(SerdeJson)
      ensures assetId.Some? ==> Untouched(dir.files, old(dir.files), assetId.value, {src})
      ensures old(dir.history) <= dir.history
      ensures assetId.Some? && dir.removalWorks ==>
                Consistent(dir.files, assetId.value, codec) &&
                Kept(dir.history, |old(dir.history)|, old(dir.files), assetId.value, codec, {src})
      ensures upload.Ok? && assetId.Some? && dir.removalWorks && dir.readingWorks ==>
                OldGone(dir.files, old(dir.files), assetId.value, codec, upload.value.fileExtension)
      ensures r.Ok? ==> r.value == DataName(assetId.value, upload.value.fileExtension)
      ensures r.Ok? ==> src in old(dir.files) && src !in dir.files
      ensures r.Ok? ==> Stored(dir.files, assetId.value, codec,
                               AssetInfo(r.value, now, upload.value.upstreamUrl), old(dir.files)[src])
      ensures r.Ok? && dir.removalWorks && dir.readingWorks ==>
                DataFiles(dir.files, assetId.value) == Replaced(old(dir.files), assetId.value, codec, r.value)
    {
      if upload.Err? {
        return Err(upload.error);
      }
      if assetId.None? {
        return Err(AssetIdNotSpecified);
      }
      DeleteExisting();
      ghost var mid := dir.files;
      var assetFileName := DataName(assetId.value, upload.value.fileExtension);
      DataNames(assetId.value, assetFileName);
      var info := AssetInfo(assetFileName, now, upload.value.upstreamUrl);
      var moved := MoveIn(src, info);
      if dir.removalWorks && dir.readingWorks {
        OldIsGone(old(dir.files), mid, dir.files, assetId.value, codec, upload.value.fileExtension);
      }
      return if moved.Ok? then Ok(assetFileName) else Err(moved.error);
    }

    /** The asset, downloaded only if there is no version of it that is up to date. */
    method DownloadIfNeeded(server: Server, now: nat) returns (r: Result<string, MediaError>)
      requires Faithful(codec) && (assetId.Some? ==> Consistent(dir.files, assetId.value, codec))
      modifies dir
      ensures old(dir.history) <= dir.history
      ensures assetId.Some? ==> Untouched(dir.files, old(dir.files), assetId.value, {})
      ensures assetId.Some? && dir.removalWorks ==>
                Consistent(dir.files, assetId.value, codec) &&
                Kept(dir.history, |old(dir.history)|, old(dir.files), assetId.value, codec, {})
      ensures r.Ok? ==> assetId.Some? && InDir(r.value) in dir.files && IsDataName(assetId.value, r.value)
      ensures r.Ok? ==> InfoOf(dir.files, assetId.value, codec).Some? &&
                        InfoOf(dir.files, assetId.value, codec).value.file == r.value
      ensures dir.readingWorks && dir.removalWorks && assetId.Some? ==>
                var info := InfoOf(old(dir.files), assetId.value, codec);
                if info.Some? && server.upToDate != Some(false) then
                  r == Ok(info.value.file) && dir.files == old(dir.files)
                else if info.Some? && server.wasRemoved then
                  r == Err(Removed) && InfoOf(dir.files, assetId.value, codec).None? &&
                  DataFiles(dir.files, assetId.value) ==
                    DataFiles(old(dir.files), assetId.value) - {InDir(info.value.file)}
                else
                  && (r.Ok? ==> server.download.Ok? && dir.files[InDir(r.value)] == server.download.value.data)
                  && (server.download.Err? ==> r == Err(server.download.error) && dir.files == old(dir.files))
                  && (server.download.Ok? ==>
                        OldGone(dir.files, old(dir.files), assetId.value, codec, server.download.value.fileExtension))
                  && (server.download.Ok? && dir.writingWorks ==>
                        r == var name := DataName(assetId.value, server.download.value.fileExtension);
                             var stored := AssetInfo(name, now, server.download.value.upstreamUrl);
                             if codec.serialize(stored).Some? then Ok(name) else Err(SerdeJson))
    {
      var info := ReadInfo();
      if info.Some? {
        var upToDate := if server.upToDate.Some? then server.upToDate.value else true;
        if upToDate {
          return Ok(info.value.file);
        }
        if server.wasRemoved {
          InfoIsNotData(assetId.value);
          ghost var infoGone, dataGone := DeleteAssetAndInfo(info.value);
          return Err(Removed);
        }
      }
      r := DownloadAsset(server.download, now);
    }
  }

  // ---- Any sequence of operations on any assets ----

  datatype Operation =
    | DownloadOf(id: string, server: Server, now: nat)
    | UploadOf(id: string, src: Path, upload: Result<Upload, MediaError>, now: nat)

  ghost predicate Unrelated(ids: set<string>) {
    forall a, b :: a in ids && b in ids && a != b ==> !Clash(a, b)
  }

  /** The operation is on one of the assets, and moves none of their files. */
  ghost predicate Fits(op: Operation, ids: set<string>) {
    op.id in ids && (op.UploadOf? ==> forall id :: id in ids ==> !OwnPath(id, op.src))
  }

  ghost predicate AllConsistent(files: Files, ids: set<string>, codec: InfoCodec) {
    forall id :: id in ids ==> Consistent(files, id, codec)
  }

  lemma OneOperation(
    history: seq<Files>, from: nat, start: Files, id: string, moved: set<Path>, ids: set<string>, codec: InfoCodec)
    requires Kept(history, from, start, id, codec, moved)
    requires id in ids && Unrelated(ids) && AllConsistent(start, ids, codec)
    requires forall other, p :: other in ids && p in moved ==> !OwnPath(other, p)
    ensures forall i :: from <= i < |history| ==> AllConsistent(history[i], ids, codec)
  {
    forall i, other | from <= i < |history| && other in ids
      ensures Consistent(history[i], other, codec)
    {
      if other != id {
        OthersUnchanged(history[i], start, id, moved, other, codec);
      }
    }
  }

  /** Whatever a crash leaves, every asset whose info can be read has the data file that the info names. */
  method Serve(dir: Directory, codec: InfoCodec, ops: seq<Operation>, ghost ids: set<string>)
    requires Faithful(codec) && dir.removalWorks
    requires Unrelated(ids) && forall k :: 0 <= k < |ops| ==> Fits(ops[k], ids)
    requires AllConsistent(dir.files, ids, codec)
    modifies dir
    ensures old(dir.history) <= dir.history
    ensures forall i :: |old(dir.history)| <= i < |dir.history| ==> AllConsistent(dir.history[i], ids, codec)
    ensures AllConsistent(dir.files, ids, codec)
  {
    for k := 0 to |ops|
      invariant old(dir.history) <= dir.history
      invariant forall i :: |old(dir.history)| <= i < |dir.history| ==> AllConsistent(dir.history[i], ids, codec)
      invariant AllConsistent(dir.files, ids, codec)
    {
      ServeOne(dir, codec, ops[k], ids);
    }
  }

  method ServeOne(dir: Directory, codec: InfoCodec, op: Operation, ghost ids: set<string>)
    requires Faithful(codec) && dir.removalWorks
    requires Unrelated(ids) && Fits(op, ids) && AllConsistent(dir.files, ids, codec)
    modifies dir
    ensures old(dir.history) <= dir.history
    ensures forall i :: |old(dir.history)| <= i < |dir.history| ==> AllConsistent(dir.history[i], ids, codec)
    ensures AllConsistent(dir.files, ids, codec)
  {
    ghost var moved := if op.UploadOf? then {op.src} else {};
    var manager := new AssetManager(dir, codec, Some(op.id));
    match op {
      case DownloadOf(_, server, now) =>
        var _ := manager.DownloadIfNeeded(server, now);
      case UploadOf(_, src, upload, now) =>
        var _ := manager.UploadAsset(src, upload, now);
    }
    OneOperation(dir.history, |old(dir.history)|, old(dir.files), op.id, moved, ids, codec);
    OneOperation([dir.files], 0, old(dir.files), op.id, moved, ids, codec);
    assert [dir.files][0] == dir.files;
  }

  // ---- What goes wrong ----

  /** Without its data file an asset is inconsistent as long as its info is there. */
  lemma InfoWithoutData(id: string, info: AssetInfo, data: Bytes, codec: InfoCodec)
    requires Faithful(codec) && codec.serialize(info).Some? && IsDataName(id, info.file)
    ensures var files := map[InDir(InfoName(id)) := codec.serialize(info).value, InDir(info.file) := data];
      Consistent(files, id, codec) && !Consistent(files - {InDir(info.file)}, id, codec)
  {
    InfoIsNotData(id);
  }

  /** The assets "x" and "x.y" share the file of "x" with the extension "y". */
  lemma ClashingNames()
    ensures DataName("x", Some("y")) == DataName("x.y", None) == "x.y"
    ensures IsDataName("x", "x.y") && IsDataName("x.y", "x.y") && Clash("x", "x.y")
    ensures InfoName("x") != "x.y" && InfoName("x.y") != "x.y" && InfoName("x.y") != InfoName("x")
  {
    assert "x" + "." <= "x.y";
    assert |InfoName("x")| == 11 && |InfoName("x.y")| == 13;
  }

  /** Removing the one leaves the other without its data. */
  method ClashBreaksOther(codec: InfoCodec, info: AssetInfo) returns (before: Files, after: Files)
    requires Faithful(codec) && codec.serialize(info).Some? && info.file == "x.y"
    ensures Consistent(before, "x", codec) && Consistent(before, "x.y", codec)
    ensures Consistent(after, "x", codec) && !Consistent(after, "x.y", codec)
  {
    ClashingNames();
    var content := codec.serialize(info).value;
    var dir := new Directory(
      map[InDir(InfoName("x")) := content, InDir(InfoName("x.y")) := content, InDir("x.y") := []], true, true, true);
    before := dir.files;
    var manager := new AssetManager(dir, codec, Some("x"));
    ghost var infoGone, dataGone := manager.DeleteAssetAndInfo(info);
    after := dir.files;
  }
}
