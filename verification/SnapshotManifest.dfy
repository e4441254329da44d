/**
 arcana/src/lexicon/snapshot.rs: reading the manifest of a snapshot (`read_manifest`).

 The manifest arrives verified and parsed; a failure to read it is the store's. What is modelled is the
 checking of its languages and files and the index it yields.
 */
module SnapshotManifest {
  import opened Wrappers
  import opened Lexicon
  import Reader
  import opened Facts
  import opened Records

  const SNAPSHOT_VERSION: u64 := 1
  const OBJECT_VERSION: u64 := 1
  const FACT_SCHEMA_VERSION: u64 := 1

  datatype FileEntry = FileEntry(path: Text, language: Text, contentId: Text, objectId: Text)

  datatype LanguageEntry = LanguageEntry(language: Text, adapterVersion: Text, adapterFingerprint: Option<Text>,
                                         schemaVersion: u64, repository: Text, analysisConfigId: Text,
                                         sharedObjectId: Option<Text>, files: seq<FileEntry>)

  datatype Manifest = Manifest(version: u64, stateCommit: Text, languages: seq<LanguageEntry>)

  /** The file objects by language and path, and the shared object of every language. */
  datatype Metadata = Metadata(id: Text, files: map<(Text, Text), Text>, sharedObjects: map<Text, Option<Text>>)

  datatype SnapshotError =
    | MalformedId(id: Text)
    | UnreadableManifest
    | UnsupportedSnapshotVersion(version: u64)
    | MalformedManifest
    | MalformedLanguage
    | UnsupportedSchemaVersion(version: u64)
    | LanguageOrdering
    | FileOrdering
    | InvalidFilePath(path: Text)
    | FileEntryMismatch
    | UnreadableObject(id: Text)
    | UndecodableObject(reason: Reader.BinaryError)
    | UnparsableObject
    | UnsupportedObjectVersion(version: u64)
    | ObjectMismatch
    | FileObjectMismatch
    | SharedObjectMismatch
    | SnapshotMetadataMismatch
    | RelationCountExceedsPlan
    | RecordError(error: LoadError)

  // ----- identifiers and order -----

  /** The ASCII text "sha256:". */
  const ID_PREFIX: Text := [115, 104, 97, 50, 53, 54, 58]

  predicate LowerHex(b: byte) {
    48 <= b <= 57 || 97 <= b <= 102
  }

  predicate ValidId(id: Text) {
    && |id| == |ID_PREFIX| + 64
    && id[..|ID_PREFIX|] == ID_PREFIX
    && forall i :: |ID_PREFIX| <= i < |id| ==> LowerHex(id[i])
  }

  function ValidateId(id: Text): Result<(), SnapshotError> {
    if ValidId(id) then Success(()) else Failure(MalformedId(id))
  }

  predicate TextLe(a: Text, b: Text) {
    FieldLe(TextField(a), TextField(b))
  }

  function NormalizeFile(s: Schema, path: Text): Result<Text, SnapshotError> {
    match s.normalize(path)
    case None => Failure(InvalidFilePath(path))
    case Some(normalized) => Success(normalized)
  }

  // ----- languages and files -----

  function ValidateLanguage(l: LanguageEntry): Result<(), SnapshotError> {
    if l.language == [] || l.adapterVersion == [] || l.repository == [] || l.analysisConfigId == [] then
      Failure(MalformedLanguage)
    else if l.schemaVersion != FACT_SCHEMA_VERSION then Failure(UnsupportedSchemaVersion(l.schemaVersion))
    else
      var _ :- if l.adapterFingerprint.Some? then ValidateId(l.adapterFingerprint.value) else Success(());
      ValidateId(l.analysisConfigId)
  }

  /** One more file of a language, behind an optional previous path. */
  function AddFile(s: Schema, language: Text, previous: Option<Text>, files: map<(Text, Text), Text>, file: FileEntry)
    : Result<map<(Text, Text), Text>, SnapshotError>
  {
    if previous.Some? && TextLe(file.path, previous.value) then Failure(FileOrdering)
    else
      var path :- NormalizeFile(s, file.path);
      var _ :- ValidateId(file.contentId);
      var _ :- ValidateId(file.objectId);
      if file.language != language || (language, path) in files then Failure(FileEntryMismatch)
      else Success(files[(language, path) := file.objectId])
  }

  function PreviousPath(files: seq<FileEntry>): Option<Text> {
    if files == [] then None else Some(files[|files| - 1].path)
  }

  function AddFiles(s: Schema, language: Text, known: map<(Text, Text), Text>, files: seq<FileEntry>)
    : Result<map<(Text, Text), Text>, SnapshotError>
  {
    if files == [] then Success(known)
    else
      var before := files[..|files| - 1];
      var indexed :- AddFiles(s, language, known, before);
      AddFile(s, language, PreviousPath(before), indexed, files[|files| - 1])
  }

  datatype Index = Index(files: map<(Text, Text), Text>, shared: map<Text, Option<Text>>)

  /** Everything the language loop checks before the files of a language. */
  function CheckLanguage(previous: Option<Text>, l: LanguageEntry): Result<(), SnapshotError> {
    var _ :- ValidateLanguage(l);
    if previous.Some? && TextLe(l.language, previous.value) then Failure(LanguageOrdering)
    else if l.sharedObjectId.Some? then ValidateId(l.sharedObjectId.value)
    else Success(())
  }

  function PreviousLanguage(languages: seq<LanguageEntry>, count: nat): Option<Text>
    requires count <= |languages|
  {
    if count == 0 then None else Some(languages[count - 1].language)
  }

  /** The index of the first `count` languages. */
  function IndexTo(s: Schema, languages: seq<LanguageEntry>, count: nat): Result<Index, SnapshotError>
    requires count <= |languages|
  {
    if count == 0 then Success(Index(map[], map[]))
    else
      var l := languages[count - 1];
      var index :- IndexTo(s, languages, count - 1);
      var _ :- CheckLanguage(PreviousLanguage(languages, count - 1), l);
      var files :- AddFiles(s, l.language, index.files, l.files);
      Success(Index(files, index.shared[l.language := l.sharedObjectId]))
  }

  function IndexLanguages(s: Schema, languages: seq<LanguageEntry>): Result<Index, SnapshotError> {
    IndexTo(s, languages, |languages|)
  }

  function ReadManifest(s: Schema, stored: Option<Manifest>, id: Text): Result<(Manifest, Metadata), SnapshotError> {
    var _ :- ValidateId(id);
    if stored.None? then Failure(UnreadableManifest)
    else
      var manifest := stored.value;
      if manifest.version != SNAPSHOT_VERSION then Failure(UnsupportedSnapshotVersion(manifest.version))
      else if manifest.stateCommit == [] then Failure(MalformedManifest)
      else
        var index :- IndexLanguages(s, manifest.languages);
        Success((manifest, Metadata(id, index.files, index.shared)))
  }

  // ----- the loops -----

  lemma {:induction false} AddFilesPrefix(s: Schema, language: Text, known: map<(Text, Text), Text>, files: seq<FileEntry>,
                                          k: nat)
    requires k <= |files| && AddFiles(s, language, known, files[..k]).Failure?
    ensures AddFiles(s, language, known, files) == AddFiles(s, language, known, files[..k])
  {
    if k < |files| {
      assert files[..|files| - 1][..k] == files[..k];
      AddFilesPrefix(s, language, known, files[..|files| - 1], k);
    } else {
      assert files[..k] == files;
    }
  }

  lemma {:induction false} IndexPrefix(s: Schema, languages: seq<LanguageEntry>, j: nat, k: nat)
    requires j <= k <= |languages| && IndexTo(s, languages, j).Failure?
    ensures IndexTo(s, languages, k) == IndexTo(s, languages, j)
  {
    hide CheckLanguage, AddFiles;
    if j < k { IndexPrefix(s, languages, j, k - 1); }
  }

  method IndexFiles(s: Schema, language: Text, known: map<(Text, Text), Text>, files: seq<FileEntry>)
    returns (r: Result<map<(Text, Text), Text>, SnapshotError>)
    ensures r == AddFiles(s, language, known, files)
  {
    hide AddFile;
    var indexed := known;
    var previous: Option<Text> := None;
    var i := 0;
    while i < |files|
      invariant 0 <= i <= |files|
      invariant AddFiles(s, language, known, files[..i]) == Success(indexed)
      invariant previous == PreviousPath(files[..i])
    {
      assert files[..i + 1][..i] == files[..i];
      var added := AddFile(s, language, previous, indexed, files[i]);
      if added.Failure? {
        AddFilesPrefix(s, language, known, files, i + 1);
        return added;
      }
      previous := Some(files[i].path);
      indexed := added.value;
      i := i + 1;
    }
    assert files[..i] == files;
    return Success(indexed);
  }

  method IndexAll(s: Schema, languages: seq<LanguageEntry>) returns (r: Result<Index, SnapshotError>)
    ensures r == IndexLanguages(s, languages)
  {
    hide CheckLanguage, AddFiles;
    var files: map<(Text, Text), Text>, shared: map<Text, Option<Text>> := map[], map[];
    var previous: Option<Text> := None;
    var i := 0;
    while i < |languages|
      invariant 0 <= i <= |languages|
      invariant IndexTo(s, languages, i) == Success(Index(files, shared))
      invariant previous == PreviousLanguage(languages, i)
    {
      var l := languages[i];
      var checked := CheckLanguage(previous, l);
      if checked.Failure? {
        IndexPrefix(s, languages, i + 1, |languages|);
        return Failure(checked.error);
      }
      var indexed := IndexFiles(s, l.language, files, l.files);
      if indexed.Failure? {
        IndexPrefix(s, languages, i + 1, |languages|);
        return Failure(indexed.error);
      }
      previous := Some(l.language);
      shared := shared[l.language := l.sharedObjectId];
      files := indexed.value;
      i := i + 1;
    }
    return Success(Index(files, shared));
  }

  method ReadSnapshotManifest(s: Schema, stored: Option<Manifest>, id: Text)
    returns (r: Result<(Manifest, Metadata), SnapshotError>)
    ensures r == ReadManifest(s, stored, id)
  {
    var _ :- ValidateId(id);
    if stored.None? { return Failure(UnreadableManifest); }
    var manifest := stored.value;
    if manifest.version != SNAPSHOT_VERSION { return Failure(UnsupportedSnapshotVersion(manifest.version)); }
    if manifest.stateCommit == [] { return Failure(MalformedManifest); }
    var index :- IndexAll(s, manifest.languages);
    return Success((manifest, Metadata(id, index.files, index.shared)));
  }

  // ----- the objects of a manifest -----

  /** An object of the manifest: the shared one of its language, or that of a file. */
  datatype Slot = Slot(language: LanguageEntry, file: Option<FileEntry>, objectId: Text)

  function SharedSlots(l: LanguageEntry): seq<Slot> {
    match l.sharedObjectId case None => [] case Some(id) => [Slot(l, None, id)]
  }

  function FileSlotsOf(l: LanguageEntry, files: seq<FileEntry>): seq<Slot> {
    seq(|files|, i requires 0 <= i < |files| => Slot(l, Some(files[i]), files[i].objectId))
  }

  function LanguageSlots(l: LanguageEntry): seq<Slot> {
    SharedSlots(l) + FileSlotsOf(l, l.files)
  }

  /** The objects of the first `count` languages, in the order they are visited. */
  function SlotsTo(languages: seq<LanguageEntry>, count: nat): seq<Slot>
    requires count <= |languages|
  {
    if count == 0 then [] else SlotsTo(languages, count - 1) + LanguageSlots(languages[count - 1])
  }

  function Slots(languages: seq<LanguageEntry>): seq<Slot> {
    SlotsTo(languages, |languages|)
  }

  // ----- what the index holds -----

  /** An object under its key: its language, and its normalised path unless it is shared. */
  datatype Entry = Entry(language: Text, path: Option<Text>, objectId: Text)

  function EntryOf(s: Schema, slot: Slot): Entry {
    Entry(slot.language.language,
          match slot.file
          case None => None
          case Some(file) => Some(match s.normalize(file.path) case None => [] case Some(path) => path),
          slot.objectId)
  }

  predicate Holds(index: Index, e: Entry) {
    match e.path
    case None => e.language in index.shared && index.shared[e.language] == Some(e.objectId)
    case Some(path) => (e.language, path) in index.files && index.files[(e.language, path)] == e.objectId
  }

  /** The index holds exactly the entries of these slots, which are all different. */
  ghost predicate Lists(s: Schema, index: Index, slots: seq<Slot>) {
    && (forall i :: 0 <= i < |slots| ==> Holds(index, EntryOf(s, slots[i])))
    && (forall e :: Holds(index, e) ==> Listed(s, slots, e))
    && (forall i, j :: 0 <= i < j < |slots| ==> EntryOf(s, slots[i]) != EntryOf(s, slots[j]))
  }

  ghost predicate Listed(s: Schema, slots: seq<Slot>, e: Entry) {
    exists i :: 0 <= i < |slots| && EntryOf(s, slots[i]) == e
  }

  lemma ListsSnoc(s: Schema, index: Index, slots: seq<Slot>, slot: Slot, next: Index)
    requires Lists(s, index, slots)
    requires !Holds(index, EntryOf(s, slot)) && Holds(next, EntryOf(s, slot))
    requires forall e :: Holds(next, e) <==> Holds(index, e) || e == EntryOf(s, slot)
    ensures Lists(s, next, slots + [slot])
  {
    hide EntryOf, Holds;
    var all := slots + [slot];
    forall e | Holds(next, e) ensures Listed(s, all, e) {
      if Holds(index, e) {
        var i :| 0 <= i < |slots| && EntryOf(s, slots[i]) == e;
        assert EntryOf(s, all[i]) == e;
      } else {
        assert EntryOf(s, all[|slots|]) == e;
      }
    }
  }

  lemma {:induction false} FilesList(s: Schema, l: LanguageEntry, index: Index, slots: seq<Slot>, files: seq<FileEntry>)
    requires Lists(s, index, slots) && AddFiles(s, l.language, index.files, files).Success?
    ensures Lists(s, index.(files := AddFiles(s, l.language, index.files, files).value), slots + FileSlotsOf(l, files))
  {
    hide Lists;
    if files == [] {
      assert slots + FileSlotsOf(l, files) == slots;
    } else {
      var before, file := files[..|files| - 1], files[|files| - 1];
      FilesList(s, l, index, slots, before);
      var slot := Slot(l, Some(file), file.objectId);
      var known := index.(files := AddFiles(s, l.language, index.files, before).value);
      var next := index.(files := AddFiles(s, l.language, index.files, files).value);
      FileHeld(s, l, known, file, next);
      ListsSnoc(s, known, slots + FileSlotsOf(l, before), slot, next);
      assert FileSlotsOf(l, files) == FileSlotsOf(l, before) + [slot];
      assert slots + FileSlotsOf(l, files) == slots + FileSlotsOf(l, before) + [slot];
    }
  }

  lemma FileHeld(s: Schema, l: LanguageEntry, known: Index, file: FileEntry, next: Index)
    requires s.normalize(file.path).Some? && (l.language, s.normalize(file.path).value) !in known.files
    requires next == known.(files := known.files[(l.language, s.normalize(file.path).value) := file.objectId])
    ensures var e := EntryOf(s, Slot(l, Some(file), file.objectId));
      && !Holds(known, e) && Holds(next, e)
      && forall f :: Holds(next, f) <==> Holds(known, f) || f == e
  {
  }

  lemma SharedHeld(s: Schema, l: LanguageEntry, known: Index, slots: seq<Slot>)
    requires Lists(s, known, slots) && l.language !in known.shared
    ensures Lists(s, known.(shared := known.shared[l.language := l.sharedObjectId]), slots + SharedSlots(l))
  {
    var next := known.(shared := known.shared[l.language := l.sharedObjectId]);
    if l.sharedObjectId.Some? {
      var slot := Slot(l, None, l.sharedObjectId.value);
      ListsSnoc(s, known, slots, slot, next);
    } else {
      assert forall e :: Holds(next, e) <==> Holds(known, e);
      assert slots + SharedSlots(l) == slots;
    }
  }

  lemma TextReflexive(t: Text)
    ensures TextLe(t, t)
  {
    FieldsTotal();
  }

  /** The languages of an accepted manifest ascend strictly, so each is indexed once. */
  lemma {:induction false} LanguagesAscend(s: Schema, languages: seq<LanguageEntry>, count: nat)
    requires count <= |languages| && IndexTo(s, languages, count).Success?
    ensures forall i, j :: 0 <= i < j < count ==> !TextLe(languages[j].language, languages[i].language)
    ensures forall k :: k in IndexTo(s, languages, count).value.shared ==> exists i :: 0 <= i < count && languages[i].language == k
    ensures count < |languages| && CheckLanguage(PreviousLanguage(languages, count), languages[count]).Success? ==>
              languages[count].language !in IndexTo(s, languages, count).value.shared
  {
    hide AddFiles, TextLe, ValidateLanguage;
    if count > 0 {
      LanguagesAscend(s, languages, count - 1);
      AscendsTo(languages, count);
      var shared := IndexTo(s, languages, count).value.shared;
      forall k | k in shared ensures exists i :: 0 <= i < count && languages[i].language == k {
        if k == languages[count - 1].language {
        } else {
          var i :| 0 <= i < count - 1 && languages[i].language == k;
        }
      }
    }
    if count < |languages| && CheckLanguage(PreviousLanguage(languages, count), languages[count]).Success? {
      var next := languages[count].language;
      AscendsTo(languages, count + 1);
      TextReflexive(next);
    }
  }

  lemma AscendsTo(languages: seq<LanguageEntry>, count: nat)
    requires 0 < count <= |languages|
    requires forall i, j :: 0 <= i < j < count - 1 ==> !TextLe(languages[j].language, languages[i].language)
    requires count > 1 ==> !TextLe(languages[count - 1].language, languages[count - 2].language)
    ensures forall i, j :: 0 <= i < j < count ==> !TextLe(languages[j].language, languages[i].language)
  {
    FieldsTotal();
    hide FieldLe;
    forall i | 0 <= i < count - 1 ensures !TextLe(languages[count - 1].language, languages[i].language) {
      if i < count - 2 { assert !TextLe(languages[count - 2].language, languages[i].language); }
    }
  }

  lemma {:induction false} IndexToLists(s: Schema, languages: seq<LanguageEntry>, count: nat)
    requires count <= |languages| && IndexTo(s, languages, count).Success?
    ensures Lists(s, IndexTo(s, languages, count).value, SlotsTo(languages, count))
  {
    if count == 0 {
    } else {
      var l := languages[count - 1];
      IndexToLists(s, languages, count - 1);
      LanguageNew(s, languages, count);
      hide AddFiles, Lists, CheckLanguage, SharedSlots, FileSlotsOf;
      var known, slots := IndexTo(s, languages, count - 1).value, SlotsTo(languages, count - 1);
      SharedHeld(s, l, known, slots);
      var shared := known.(shared := known.shared[l.language := l.sharedObjectId]);
      FilesList(s, l, shared, slots + SharedSlots(l), l.files);
      Regrouped(slots, l);
      assert SlotsTo(languages, count) == slots + LanguageSlots(l);
    }
  }

  lemma Regrouped(slots: seq<Slot>, l: LanguageEntry)
    ensures slots + LanguageSlots(l) == slots + SharedSlots(l) + FileSlotsOf(l, l.files)
  {
  }

  lemma LanguageNew(s: Schema, languages: seq<LanguageEntry>, count: nat)
    requires 0 < count <= |languages| && IndexTo(s, languages, count).Success?
    ensures languages[count - 1].language !in IndexTo(s, languages, count - 1).value.shared
  {
    hide AddFiles, CheckLanguage;
    LanguagesAscend(s, languages, count - 1);
  }

  /**
   The metadata of an accepted manifest determine its objects: one for every shared object and file they
   index, and no other.
   */
  lemma ManifestExact(s: Schema, stored: Option<Manifest>, id: Text)
    requires ReadManifest(s, stored, id).Success?
    ensures var (manifest, metadata) := ReadManifest(s, stored, id).value;
      Lists(s, Index(metadata.files, metadata.sharedObjects), Slots(manifest.languages))
  {
    hide IndexTo, Lists;
    IndexToLists(s, stored.value.languages, |stored.value.languages|);
  }

  /** A path some path normalises to. */
  ghost predicate InNormalForm(s: Schema, path: Text) {
    exists p :: s.normalize(p) == Some(path)
  }

  lemma {:induction false} FilesInNormalForm(s: Schema, language: Text, known: map<(Text, Text), Text>, files: seq<FileEntry>)
    requires AddFiles(s, language, known, files).Success?
    requires forall k :: k in known ==> InNormalForm(s, k.1)
    ensures forall k :: k in AddFiles(s, language, known, files).value ==> InNormalForm(s, k.1)
  {
    if files != [] {
      FilesInNormalForm(s, language, known, files[..|files| - 1]);
      hide TextLe, ValidId;
      assert InNormalForm(s, s.normalize(files[|files| - 1].path).value);
    }
  }

  /** Files are indexed under normalised paths. */
  lemma {:induction false} IndexInNormalForm(s: Schema, languages: seq<LanguageEntry>, count: nat)
    requires count <= |languages| && IndexTo(s, languages, count).Success?
    ensures forall k :: k in IndexTo(s, languages, count).value.files ==> InNormalForm(s, k.1)
  {
    hide CheckLanguage, AddFiles, InNormalForm;
    if count > 0 {
      IndexInNormalForm(s, languages, count - 1);
      var l := languages[count - 1];
      FilesInNormalForm(s, l.language, IndexTo(s, languages, count - 1).value.files, l.files);
    }
  }

  // ----- which manifests are accepted -----

  ghost predicate FileAccepted(s: Schema, language: Text, file: FileEntry) {
    s.normalize(file.path).Some? && ValidId(file.contentId) && ValidId(file.objectId) && file.language == language
  }

  /** Every file is in order, their paths ascend as they are written, and no two come to the same path. */
  ghost predicate FilesAccepted(s: Schema, language: Text, files: seq<FileEntry>) {
    && (forall i :: 0 <= i < |files| ==> FileAccepted(s, language, files[i]))
    && (forall i :: 0 < i < |files| ==> !TextLe(files[i].path, files[i - 1].path))
    && (forall i, j :: 0 <= i < j < |files| ==> s.normalize(files[i].path) != s.normalize(files[j].path))
  }

  ghost predicate LanguageAccepted(s: Schema, l: LanguageEntry) {
    && l.language != [] && l.adapterVersion != [] && l.repository != [] && ValidId(l.analysisConfigId)
    && l.schemaVersion == 1
    && (l.adapterFingerprint.Some? ==> ValidId(l.adapterFingerprint.value))
    && (l.sharedObjectId.Some? ==> ValidId(l.sharedObjectId.value))
    && FilesAccepted(s, l.language, l.files)
  }

  ghost predicate LanguagesAccepted(s: Schema, languages: seq<LanguageEntry>) {
    && (forall i :: 0 <= i < |languages| ==> LanguageAccepted(s, languages[i]))
    && (forall i :: 0 < i < |languages| ==> !TextLe(languages[i].language, languages[i - 1].language))
  }

  /** The keys under which the files of a language are indexed. */
  ghost predicate IndexedAs(s: Schema, language: Text, files: seq<FileEntry>, key: (Text, Text)) {
    exists i :: 0 <= i < |files| && key.0 == language && s.normalize(files[i].path) == Some(key.1)
  }

  lemma AddFileExact(s: Schema, language: Text, previous: Option<Text>, known: map<(Text, Text), Text>, file: FileEntry)
    ensures AddFile(s, language, previous, known, file).Success? <==>
            && FileAccepted(s, language, file) && (previous.Some? ==> !TextLe(file.path, previous.value))
            && (language, s.normalize(file.path).value) !in known
    ensures AddFile(s, language, previous, known, file).Success? ==>
      AddFile(s, language, previous, known, file).value.Keys == known.Keys + {(language, s.normalize(file.path).value)}
  {
    hide ValidId, TextLe;
  }

  lemma {:induction false} AddFilesExact(s: Schema, language: Text, known: map<(Text, Text), Text>, files: seq<FileEntry>)
    requires forall k :: k in known ==> k.0 != language
    ensures AddFiles(s, language, known, files).Success? <==> FilesAccepted(s, language, files)
    ensures AddFiles(s, language, known, files).Success? ==>
      forall k :: k in AddFiles(s, language, known, files).value <==> k in known || IndexedAs(s, language, files, k)
  {
    if files == [] {
    } else {
      hide AddFile, TextLe, FileAccepted, FilesAccepted, IndexedAs;
      var n := |files| - 1;
      var before, file := files[..n], files[n];
      assert files == before + [file];
      AddFilesExact(s, language, known, before);
      LastFile(s, language, before, file);
      if AddFiles(s, language, known, before).Success? {
        AddFileExact(s, language, PreviousPath(before), AddFiles(s, language, known, before).value, file);
      }
    }
  }

  /** One file more is accepted if it is in order, behind the last one, and comes to a path of its own. */
  lemma LastFile(s: Schema, language: Text, before: seq<FileEntry>, file: FileEntry)
    ensures FilesAccepted(s, language, before + [file]) <==>
            && FilesAccepted(s, language, before) && FileAccepted(s, language, file)
            && (before != [] ==> !TextLe(file.path, before[|before| - 1].path))
            && !IndexedAs(s, language, before, (language, s.normalize(file.path).value))
    ensures FileAccepted(s, language, file) ==>
      forall k :: IndexedAs(s, language, before + [file], k) <==>
                  IndexedAs(s, language, before, k) || k == (language, s.normalize(file.path).value)
  {
    hide ValidId, TextLe;
    var files, n := before + [file], |before|;
    assert forall i :: 0 <= i < n ==> files[i] == before[i];
    var path := s.normalize(file.path);
    if FilesAccepted(s, language, files) {
      FewerFiles(s, language, before, file);
    }
    if FileAccepted(s, language, file) {
      if FilesAccepted(s, language, before) && (before != [] ==> !TextLe(file.path, before[n - 1].path))
         && !IndexedAs(s, language, before, (language, path.value)) {
        MoreFiles(s, language, before, file);
      }
      forall k ensures IndexedAs(s, language, files, k) <==> IndexedAs(s, language, before, k) || k == (language, path.value) {
        if IndexedAs(s, language, before, k) {
          var i :| 0 <= i < n && k.0 == language && s.normalize(before[i].path) == Some(k.1);
          assert s.normalize(files[i].path) == Some(k.1);
        }
        if k == (language, path.value) { assert s.normalize(files[n].path) == Some(k.1); }
      }
    }
  }

  lemma FewerFiles(s: Schema, language: Text, before: seq<FileEntry>, file: FileEntry)
    requires FilesAccepted(s, language, before + [file])
    ensures FilesAccepted(s, language, before) && FileAccepted(s, language, file)
    ensures before != [] ==> !TextLe(file.path, before[|before| - 1].path)
    ensures !IndexedAs(s, language, before, (language, s.normalize(file.path).value))
  {
    hide ValidId, TextLe;
    var files, n := before + [file], |before|;
    assert forall i :: 0 <= i < n ==> files[i] == before[i];
    assert FileAccepted(s, language, files[n]);
    if before != [] { assert !TextLe(files[n].path, files[n - 1].path); }
    forall i | 0 < i < n ensures !TextLe(before[i].path, before[i - 1].path) {
      assert !TextLe(files[i].path, files[i - 1].path);
    }
    forall i | 0 <= i < n ensures s.normalize(before[i].path) != s.normalize(file.path) {
      assert s.normalize(files[i].path) != s.normalize(files[n].path);
    }
  }

  lemma MoreFiles(s: Schema, language: Text, before: seq<FileEntry>, file: FileEntry)
    requires FilesAccepted(s, language, before) && FileAccepted(s, language, file)
    requires before != [] ==> !TextLe(file.path, before[|before| - 1].path)
    requires !IndexedAs(s, language, before, (language, s.normalize(file.path).value))
    ensures FilesAccepted(s, language, before + [file])
  {
    hide ValidId, TextLe;
    var files, n := before + [file], |before|;
    forall i | 0 <= i < |files| ensures FileAccepted(s, language, files[i]) {
      if i < n { assert files[i] == before[i]; }
    }
    forall i | 0 < i < |files| ensures !TextLe(files[i].path, files[i - 1].path) {
      if i < n { assert files[i] == before[i] && files[i - 1] == before[i - 1]; }
    }
    forall i, j | 0 <= i < j < |files| ensures s.normalize(files[i].path) != s.normalize(files[j].path) {
      assert files[i] == before[i] && FileAccepted(s, language, before[i]);
      if j < n { assert files[j] == before[j]; }
    }
  }

  /** The languages of the indexed files are among those gone through. */
  lemma {:induction false} IndexedLanguages(s: Schema, languages: seq<LanguageEntry>, count: nat)
    requires count <= |languages| && IndexTo(s, languages, count).Success?
    ensures forall k :: k in IndexTo(s, languages, count).value.files ==> exists i :: 0 <= i < count && languages[i].language == k.0
  {
    if count > 0 {
      hide AddFiles, CheckLanguage;
      IndexedLanguages(s, languages, count - 1);
      AddedKeys(s, languages[count - 1].language, IndexTo(s, languages, count - 1).value.files, languages[count - 1].files);
    }
  }

  lemma {:induction false} AddedKeys(s: Schema, language: Text, known: map<(Text, Text), Text>, files: seq<FileEntry>)
    requires AddFiles(s, language, known, files).Success?
    ensures forall k :: k in AddFiles(s, language, known, files).value ==> k in known || k.0 == language
  {
    if files != [] {
      hide TextLe, ValidId;
      AddedKeys(s, language, known, files[..|files| - 1]);
    }
  }

  /** The first languages, up to the `count`-th. */
  ghost predicate AcceptedTo(s: Schema, languages: seq<LanguageEntry>, count: nat)
    requires count <= |languages|
  {
    && (forall i :: 0 <= i < count ==> LanguageAccepted(s, languages[i]))
    && (forall i :: 0 < i < count ==> !TextLe(languages[i].language, languages[i - 1].language))
  }

  lemma CheckedExact(previous: Option<Text>, l: LanguageEntry)
    ensures CheckLanguage(previous, l).Success? <==>
            && l.language != [] && l.adapterVersion != [] && l.repository != [] && ValidId(l.analysisConfigId) && l.schemaVersion == 1
            && (l.adapterFingerprint.Some? ==> ValidId(l.adapterFingerprint.value))
            && (l.sharedObjectId.Some? ==> ValidId(l.sharedObjectId.value))
            && (previous.Some? ==> !TextLe(l.language, previous.value))
  {
    hide ValidId, TextLe;
    assert ValidId(l.analysisConfigId) ==> l.analysisConfigId != [] by { if ValidId(l.analysisConfigId) { IdNotEmpty(l.analysisConfigId); } }
  }

  lemma IdNotEmpty(id: Text)
    requires ValidId(id)
    ensures id != []
  {
  }

  lemma IndexStep(s: Schema, languages: seq<LanguageEntry>, count: nat)
    requires 0 < count <= |languages|
    ensures var before, l := IndexTo(s, languages, count - 1), languages[count - 1];
      && (IndexTo(s, languages, count).Success? <==>
            && before.Success? && CheckLanguage(PreviousLanguage(languages, count - 1), l).Success?
            && AddFiles(s, l.language, before.value.files, l.files).Success?)
      && (IndexTo(s, languages, count).Success? ==>
            IndexTo(s, languages, count).value.shared == before.value.shared[l.language := l.sharedObjectId])
  {
    hide AddFiles, CheckLanguage;
  }

  lemma AcceptedStep(s: Schema, languages: seq<LanguageEntry>, count: nat)
    requires 0 < count <= |languages|
    ensures AcceptedTo(s, languages, count) <==>
            && AcceptedTo(s, languages, count - 1) && LanguageAccepted(s, languages[count - 1])
            && (1 < count ==> !TextLe(languages[count - 1].language, languages[count - 2].language))
  {
    hide LanguageAccepted, TextLe;
  }

  lemma {:induction false} IndexExact(s: Schema, languages: seq<LanguageEntry>, count: nat)
    requires count <= |languages|
    ensures IndexTo(s, languages, count).Success? <==> AcceptedTo(s, languages, count)
  {
    if count > 0 {
      var l, previous := languages[count - 1], PreviousLanguage(languages, count - 1);
      IndexExact(s, languages, count - 1);
      CheckedExact(previous, l);
      IndexStep(s, languages, count);
      AcceptedStep(s, languages, count);
      hide AddFiles, CheckLanguage, FilesAccepted, ValidId, TextLe, IndexTo, AcceptedTo;
      if IndexTo(s, languages, count - 1).Success? && CheckLanguage(previous, l).Success? {
        NewLanguage(s, languages, count);
        AddFilesExact(s, l.language, IndexTo(s, languages, count - 1).value.files, l.files);
      }
    }
  }

  lemma NewLanguage(s: Schema, languages: seq<LanguageEntry>, count: nat)
    requires 0 < count <= |languages| && IndexTo(s, languages, count - 1).Success?
    requires CheckLanguage(PreviousLanguage(languages, count - 1), languages[count - 1]).Success?
    ensures forall k :: k in IndexTo(s, languages, count - 1).value.files ==> k.0 != languages[count - 1].language
  {
    hide AddFiles, CheckLanguage;
    LanguagesAscend(s, languages, count - 1);
    IndexedLanguages(s, languages, count - 1);
    SharedIndexed(s, languages, count - 1);
  }

  lemma {:induction false} SharedIndexed(s: Schema, languages: seq<LanguageEntry>, count: nat)
    requires count <= |languages| && IndexTo(s, languages, count).Success?
    ensures forall i :: 0 <= i < count ==> languages[i].language in IndexTo(s, languages, count).value.shared
  {
    if count > 0 {
      IndexStep(s, languages, count);
      hide IndexTo, AddFiles, CheckLanguage;
      SharedIndexed(s, languages, count - 1);
    }
  }

  /**
   A manifest is accepted exactly when it is found under a valid identifier, its version is 1, it names a commit, and its
   languages and their files are in order.
   */
  lemma AcceptedExact(s: Schema, stored: Option<Manifest>, id: Text)
    ensures ReadManifest(s, stored, id).Success? <==>
            && ValidId(id) && stored.Some? && stored.value.version == 1 && stored.value.stateCommit != []
            && LanguagesAccepted(s, stored.value.languages)
  {
    hide ValidId, IndexTo, LanguageAccepted, TextLe;
    if stored.Some? { IndexExact(s, stored.value.languages, |stored.value.languages|); }
  }
}
