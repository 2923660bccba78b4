/**
  The two reconciliations of the theme file with the workspace's Java files:
  the full rebuild (every file, mappings replaced wholesale) and the
  single-file update (one entry set in all three mappings). File reads,
  the theme file's parse and the write are inputs; the theme file on disk
  is the one piece of state, held by `ThemeFile`.
*/
module Reconciler {
  import opened Wrappers
  import opened Classifier
  import opened Icons
  import opened Theme

  /** What reading a Java file gave. */
  datatype ReadOutcome = Read(text: string) | Unreadable

  /** A Java file found in the workspace: its workspace-relative path and its read outcome. */
  datatype JavaFile = JavaFile(path: string, content: ReadOutcome)

  /** The theme file on disk: a parsed document, or one that cannot be read or parsed. */
  datatype StoredTheme = Parsed(doc: ThemeDocument) | Unparsable

  /** Why an update wrote nothing. */
  datatype Abort = SourceUnreadable | ThemeUnreadable | NoWorkspace | MissingSection | WriteFailed

  datatype Outcome = Written | Aborted(reason: Abort)

  /**
    What the write of the theme file did: it completed, it failed before
    the file was opened (the file is as it was), or it failed after the
    file was truncated (what is left is a proper prefix of the document's
    JSON text, which does not parse).
  */
  datatype WriteResult = WriteDone | WriteRefused | WriteTorn

  /** The icon of a file that was read. */
  function IconOf(f: JavaFile): string
    requires f.content.Read?
  {
    IconFor(DetermineFileType(f.content.text))
  }

  /** The `i`th file contributes an entry: it was read and a workspace folder is open. */
  predicate Recorded(files: seq<JavaFile>, hasWorkspace: bool, i: int)
    requires 0 <= i < |files|
  {
    hasWorkspace && files[i].content.Read?
  }

  /** No later file with the same path contributes an entry. */
  ghost predicate LastRecorded(files: seq<JavaFile>, hasWorkspace: bool, i: int)
    requires 0 <= i < |files|
  {
    forall j :: i < j < |files| && files[j].path == files[i].path ==> !Recorded(files, hasWorkspace, j)
  }

  /** The mapping the rebuild loop produces: files in order, a later entry overwriting an earlier one. */
  function IconMapping(files: seq<JavaFile>, hasWorkspace: bool): (m: FileNames)
    ensures !hasWorkspace ==> m == map[]
    ensures forall p :: p in m ==> m[p] in {ClassIcon, InterfaceIcon, EnumIcon, AbstractIcon}
    decreases |files|
  {
    if files == [] then map[]
    else
      var m := IconMapping(files[..|files| - 1], hasWorkspace);
      var last := |files| - 1;
      if Recorded(files, hasWorkspace, last) then m[files[last].path := IconOf(files[last])] else m
  }

  /**
    The rebuilt mapping has exactly the paths of the files that were read
    (none when no workspace folder is open).
  */
  lemma {:induction false} IconMappingKeys(files: seq<JavaFile>, hasWorkspace: bool)
    ensures forall p :: p in IconMapping(files, hasWorkspace) <==>
      exists i :: 0 <= i < |files| && Recorded(files, hasWorkspace, i) && files[i].path == p
    decreases |files|
  {
    if files != [] {
      var init := files[..|files| - 1];
      IconMappingKeys(init, hasWorkspace);
      forall p ensures p in IconMapping(files, hasWorkspace) <==>
        exists i :: 0 <= i < |files| && Recorded(files, hasWorkspace, i) && files[i].path == p
      {
        IconMappingKeyStep(files, hasWorkspace, p);
      }
    }
  }

  /** One step of `IconMappingKeys`: the last file, and the files before it. */
  lemma IconMappingKeyStep(files: seq<JavaFile>, hasWorkspace: bool, p: string)
    requires files != []
    requires var init := files[..|files| - 1];
      p in IconMapping(init, hasWorkspace) <==>
      exists i :: 0 <= i < |init| && Recorded(init, hasWorkspace, i) && init[i].path == p
    ensures p in IconMapping(files, hasWorkspace) <==>
      exists i :: 0 <= i < |files| && Recorded(files, hasWorkspace, i) && files[i].path == p
  {
    var init := files[..|files| - 1];
    var last := |files| - 1;
    var mi := IconMapping(init, hasWorkspace);
    assert p in IconMapping(files, hasWorkspace) <==>
      p in mi || (Recorded(files, hasWorkspace, last) && files[last].path == p);
    if p in mi {
      var i :| 0 <= i < |init| && Recorded(init, hasWorkspace, i) && init[i].path == p;
      assert files[i] == init[i];
    }
    if exists i :: 0 <= i < |files| && Recorded(files, hasWorkspace, i) && files[i].path == p {
      var i :| 0 <= i < |files| && Recorded(files, hasWorkspace, i) && files[i].path == p;
      if i < last {
        assert init[i] == files[i];
      }
    }
  }

  /**
    In the rebuilt mapping, the path of a file that was read carries that
    file's icon unless a later file at the same path was read too.
  */
  lemma {:induction false} IconMappingValues(files: seq<JavaFile>, hasWorkspace: bool)
    ensures forall i :: 0 <= i < |files| && Recorded(files, hasWorkspace, i) && LastRecorded(files, hasWorkspace, i) ==>
      files[i].path in IconMapping(files, hasWorkspace) && IconMapping(files, hasWorkspace)[files[i].path] == IconOf(files[i])
    decreases |files|
  {
    if files != [] {
      var init := files[..|files| - 1];
      var last := |files| - 1;
      IconMappingValues(init, hasWorkspace);
      var m := IconMapping(files, hasWorkspace);
      forall i | 0 <= i < |files| && Recorded(files, hasWorkspace, i) && LastRecorded(files, hasWorkspace, i)
        ensures files[i].path in m && m[files[i].path] == IconOf(files[i])
      {
        if i < last {
          assert init[i] == files[i];
          assert LastRecorded(init, hasWorkspace, i) by {
            forall j | i < j < |init| && init[j].path == init[i].path ensures !Recorded(init, hasWorkspace, j) {
              assert init[j] == files[j];
            }
          }
        }
      }
    }
  }

  /** A file that cannot be read is left out of the rebuild, as if it were not there. */
  lemma {:induction false} UnreadableFileSkipped(before: seq<JavaFile>, path: string, after: seq<JavaFile>, hasWorkspace: bool)
    ensures IconMapping(before + [JavaFile(path, Unreadable)] + after, hasWorkspace) == IconMapping(before + after, hasWorkspace)
    decreases |after|
  {
    var files := before + [JavaFile(path, Unreadable)] + after;
    if after == [] {
      assert files[..|files| - 1] == before;
      assert before + after == before;
    } else {
      var init := after[..|after| - 1];
      UnreadableFileSkipped(before, path, init, hasWorkspace);
      assert files[..|files| - 1] == before + [JavaFile(path, Unreadable)] + init;
      assert (before + after)[..|before + after| - 1] == before + init;
      assert files[|files| - 1] == (before + after)[|before + after| - 1];
    }
  }

  /**
    The loop of the rebuild: read and classify each file in turn, and put
    its icon into three mappings at once. A file that cannot be read is
    skipped.
  */
  method BuildMappings(files: seq<JavaFile>, hasWorkspace: bool)
    returns (fileNames: FileNames, lightFileNames: FileNames, highContrastFileNames: FileNames)
    ensures fileNames == IconMapping(files, hasWorkspace)
    ensures lightFileNames == fileNames && highContrastFileNames == fileNames
  {
    fileNames, lightFileNames, highContrastFileNames := map[], map[], map[];
    var i := 0;
    while i < |files|
      invariant 0 <= i <= |files|
      invariant fileNames == IconMapping(files[..i], hasWorkspace)
      invariant lightFileNames == fileNames && highContrastFileNames == fileNames
    {
      assert files[..i + 1][..i] == files[..i];
      var file := files[i];
      if file.content.Read? {
        var kind := DetermineFileType(file.content.text);
        if hasWorkspace {
          var icon := IconFor(kind);
          fileNames := fileNames[file.path := icon];
          lightFileNames := lightFileNames[file.path := icon];
          highContrastFileNames := highContrastFileNames[file.path := icon];
        }
      }
      i := i + 1;
    }
    assert files[..i] == files;
  }

  /** What is written by the wholesale replace, or why nothing is. */
  function Replaced(stored: StoredTheme, fileNames: FileNames, light: FileNames, highContrast: FileNames)
    : (r: Result<ThemeDocument, Abort>)
    ensures r.Success? <==> stored.Parsed? && HasSections(stored.doc)
    ensures r.Failure? ==> r.error == if stored.Parsed? then MissingSection else ThemeUnreadable
    ensures r.Success? ==> r.value == ReplaceFileNames(stored.doc, fileNames, light, highContrast).value
  {
    match stored
    case Unparsable => Failure(ThemeUnreadable)
    case Parsed(doc) =>
      match ReplaceFileNames(doc, fileNames, light, highContrast)
      case Success(d) => Success(d)
      case Failure(_) => Failure(MissingSection)
  }

  /** What the full rebuild writes, or why it writes nothing. */
  function Rebuilt(stored: StoredTheme, files: seq<JavaFile>, hasWorkspace: bool): (r: Result<ThemeDocument, Abort>)
    ensures r.Success? <==> stored.Parsed? && HasSections(stored.doc)
    ensures r.Failure? ==> r.error == if stored.Parsed? then MissingSection else ThemeUnreadable
    ensures r.Success? ==>
      && InLockstep(r.value)
      && FileNamesOf(r.value, Default) == Some(IconMapping(files, hasWorkspace))
      && SameApartFromFileNames(stored.doc, r.value)
  {
    var m := IconMapping(files, hasWorkspace);
    Replaced(stored, m, m, m)
  }

  /** What the single-file update writes, or why it writes nothing. */
  function Upserted(stored: StoredTheme, path: string, content: ReadOutcome, hasWorkspace: bool)
    : (r: Result<ThemeDocument, Abort>)
    ensures r.Success? <==> content.Read? && stored.Parsed? && hasWorkspace && HasSections(stored.doc)
    ensures r.Failure? ==>
      r.error == (if content.Unreadable? then SourceUnreadable
                  else if stored.Unparsable? then ThemeUnreadable
                  else if !hasWorkspace then NoWorkspace
                  else MissingSection)
    ensures r.Success? ==>
      && SameApartFromFileNames(stored.doc, r.value)
      && forall v, p :: Lookup(r.value, v, p) ==
           if p == path then Some(IconFor(DetermineFileType(content.text))) else Lookup(stored.doc, v, p)
  {
    if content.Unreadable? then Failure(SourceUnreadable)
    else if stored.Unparsable? then Failure(ThemeUnreadable)
    else if !hasWorkspace then Failure(NoWorkspace)
    else
      match SetFileName(stored.doc, path, IconFor(DetermineFileType(content.text)))
      case Success(d) => Success(d)
      case Failure(_) => Failure(MissingSection)
  }

  /** The outcome of an update: its abort reason, or the write's success. */
  function Commit(r: Result<ThemeDocument, Abort>, write: WriteResult): Outcome {
    if r.Failure? then Aborted(r.error)
    else if write == WriteDone then Written
    else Aborted(WriteFailed)
  }

  /**
    After a successful rebuild every variant maps exactly the paths of the
    files that were read, the entries that were there before are gone, and
    a path read only once carries that file's icon.
  */
  lemma RebuildExact(stored: StoredTheme, files: seq<JavaFile>, hasWorkspace: bool)
    requires Rebuilt(stored, files, hasWorkspace).Success?
    ensures var doc := Rebuilt(stored, files, hasWorkspace).value;
      forall v, p :: Lookup(doc, v, p).Some? <==>
        exists i :: 0 <= i < |files| && Recorded(files, hasWorkspace, i) && files[i].path == p
    ensures var doc := Rebuilt(stored, files, hasWorkspace).value;
      forall v, i :: 0 <= i < |files| && Recorded(files, hasWorkspace, i) && LastRecorded(files, hasWorkspace, i) ==>
        Lookup(doc, v, files[i].path) == Some(IconOf(files[i]))
  {
    IconMappingKeys(files, hasWorkspace);
    IconMappingValues(files, hasWorkspace);
    var doc := Rebuilt(stored, files, hasWorkspace).value;
    assert forall v :: FileNamesOf(doc, v) == Some(IconMapping(files, hasWorkspace));
  }

  /** Rebuilding again from the same files writes the same document. */
  lemma RebuildIdempotent(stored: StoredTheme, files: seq<JavaFile>, hasWorkspace: bool)
    requires Rebuilt(stored, files, hasWorkspace).Success?
    ensures var once := Rebuilt(stored, files, hasWorkspace);
      Rebuilt(Parsed(once.value), files, hasWorkspace) == once
  {
    var m := IconMapping(files, hasWorkspace);
    ReplaceIdempotent(stored.doc, m, m, m);
  }

  /** The single-file update, applied twice, writes what it writes once. */
  lemma UpsertIdempotent(stored: StoredTheme, path: string, content: ReadOutcome, hasWorkspace: bool)
    requires content.Read? && stored.Parsed? && hasWorkspace && HasSections(stored.doc)
    ensures var once := Upserted(stored, path, content, hasWorkspace);
      Upserted(Parsed(once.value), path, content, hasWorkspace) == once
  {
    SetFileNameIdempotent(stored.doc, path, IconFor(DetermineFileType(content.text)));
  }

  /** A rebuild followed by single-file updates keeps the three variants equal. */
  lemma UpsertKeepsLockstep(stored: StoredTheme, path: string, content: ReadOutcome, hasWorkspace: bool)
    requires stored.Parsed? && InLockstep(stored.doc)
    requires Upserted(stored, path, content, hasWorkspace).Success?
    ensures InLockstep(Upserted(stored, path, content, hasWorkspace).value)
  {
    SetFileNameKeepsLockstep(stored.doc, path, IconFor(DetermineFileType(content.text)));
  }

  /** The theme file on disk, and the extension's three operations on it. */
  class ThemeFile {
    var stored: StoredTheme

    constructor (initial: StoredTheme)
      ensures stored == initial
    {
      stored := initial;
    }

    /**
      Read the theme file, assign the three mappings, write it back. When
      the file cannot be parsed, a section is missing, or the write is
      refused, the file is left as it was; a write that fails after
      truncating the file leaves it unparsable.
    */
    method UpdateIconThemeFile(fileNames: FileNames, lightFileNames: FileNames, highContrastFileNames: FileNames,
                               write: WriteResult)
      returns (outcome: Outcome)
      modifies this
      ensures outcome == Commit(Replaced(old(stored), fileNames, lightFileNames, highContrastFileNames), write)
      ensures stored ==
        if outcome.Written? then Parsed(Replaced(old(stored), fileNames, lightFileNames, highContrastFileNames).value)
        else if outcome == Aborted(WriteFailed) && write == WriteTorn then Unparsable
        else old(stored)
    {
      if stored.Unparsable? {
        return Aborted(ThemeUnreadable);
      }
      var doc := stored.doc;
      doc := doc.(fileNames := Some(fileNames));
      if doc.light.None? {
        return Aborted(MissingSection);
      }
      doc := doc.(light := Some(doc.light.value.(fileNames := Some(lightFileNames))));
      if doc.highContrast.None? {
        return Aborted(MissingSection);
      }
      doc := doc.(highContrast := Some(doc.highContrast.value.(fileNames := Some(highContrastFileNames))));
      if write != WriteDone {
        if write == WriteTorn {
          stored := Unparsable;
        }
        return Aborted(WriteFailed);
      }
      stored := Parsed(doc);
      outcome := Written;
    }

    /** The full rebuild: classify every file, then replace the three mappings. */
    method UpdateJavaFileIcons(files: seq<JavaFile>, hasWorkspace: bool, write: WriteResult)
      returns (outcome: Outcome)
      modifies this
      ensures outcome == Commit(Rebuilt(old(stored), files, hasWorkspace), write)
      ensures stored ==
        if outcome.Written? then Parsed(Rebuilt(old(stored), files, hasWorkspace).value)
        else if outcome == Aborted(WriteFailed) && write == WriteTorn then Unparsable
        else old(stored)
    {
      var fileNames, lightFileNames, highContrastFileNames := BuildMappings(files, hasWorkspace);
      outcome := UpdateIconThemeFile(fileNames, lightFileNames, highContrastFileNames, write);
    }

    /**
      The single-file update: classify one file and set its entry in all
      three mappings, creating a missing mapping first.
    */
    method UpdateJavaFileIcon(path: string, content: ReadOutcome, hasWorkspace: bool, write: WriteResult)
      returns (outcome: Outcome)
      modifies this
      ensures outcome == Commit(Upserted(old(stored), path, content, hasWorkspace), write)
      ensures stored ==
        if outcome.Written? then Parsed(Upserted(old(stored), path, content, hasWorkspace).value)
        else if outcome == Aborted(WriteFailed) && write == WriteTorn then Unparsable
        else old(stored)
    {
      if content.Unreadable? {
        return Aborted(SourceUnreadable);
      }
      var kind := DetermineFileType(content.text);
      if stored.Unparsable? {
        return Aborted(ThemeUnreadable);
      }
      var doc := stored.doc;
      if !hasWorkspace {
        return Aborted(NoWorkspace);
      }
      var icon := IconFor(kind);
      if doc.fileNames.None? {
        doc := doc.(fileNames := Some(map[]));
      }
      if doc.light.None? {
        return Aborted(MissingSection);
      }
      if doc.light.value.fileNames.None? {
        doc := doc.(light := Some(doc.light.value.(fileNames := Some(map[]))));
      }
      if doc.highContrast.None? {
        return Aborted(MissingSection);
      }
      if doc.highContrast.value.fileNames.None? {
        doc := doc.(highContrast := Some(doc.highContrast.value.(fileNames := Some(map[]))));
      }
      doc := doc.(fileNames := Some(doc.fileNames.value[path := icon]));
      doc := doc.(light := Some(doc.light.value.(fileNames := Some(doc.light.value.fileNames.value[path := icon]))));
      doc := doc.(highContrast :=
        Some(doc.highContrast.value.(fileNames := Some(doc.highContrast.value.fileNames.value[path := icon]))));
      if write != WriteDone {
        if write == WriteTorn {
          stored := Unparsable;
        }
        return Aborted(WriteFailed);
      }
      stored := Parsed(doc);
      outcome := Written;
    }
  }
}
