/**
  The icon theme document and the two ways the extension rewrites its
  `fileNames` mappings: replacing all three wholesale, and setting one path
  in all three.
*/
module Theme {
  import opened Wrappers

  /** A JSON value, for the members of the document that are passed through untouched. */
  datatype Json =
    | JNull
    | JBool(b: bool)
    | JNumber(n: real)
    | JString(s: string)
    | JArray(items: seq<Json>)
    | JObject(members: map<string, Json>)

  /** A `fileNames` mapping: workspace-relative path to icon identifier. */
  type FileNames = map<string, string>

  /**
    The `light` or `highContrast` member: its `fileNames` (None when absent
    or falsy) and its other members.
  */
  datatype Section = Section(fileNames: Option<FileNames>, rest: map<string, Json>)

  /**
    The theme document: the default `fileNames`, the `light` and
    `highContrast` sections (None when absent or not an object) and every
    other top-level member.
  */
  datatype ThemeDocument = ThemeDocument(
    fileNames: Option<FileNames>,
    light: Option<Section>,
    highContrast: Option<Section>,
    rest: map<string, Json>)

  /** The three rendering variants, each with its own `fileNames`. */
  datatype Variant = Default | Light | HighContrast

  /** Why a rewrite of the document stops before anything is written. */
  datatype DocError = SectionAbsent

  function FileNamesOf(doc: ThemeDocument, v: Variant): Option<FileNames> {
    match v
    case Default => doc.fileNames
    case Light => if doc.light.Some? then doc.light.value.fileNames else None
    case HighContrast => if doc.highContrast.Some? then doc.highContrast.value.fileNames else None
  }

  /** The icon variant `v` of the document gives `path`, if any. */
  function Lookup(doc: ThemeDocument, v: Variant, path: string): Option<string> {
    match FileNamesOf(doc, v)
    case None => None
    case Some(m) => if path in m then Some(m[path]) else None
  }

  /** Both nested sections are present, so their `fileNames` can be assigned. */
  predicate HasSections(doc: ThemeDocument) {
    doc.light.Some? && doc.highContrast.Some?
  }

  /** The two documents differ at most in their three `fileNames` mappings. */
  predicate SameApartFromFileNames(a: ThemeDocument, b: ThemeDocument) {
    && a.rest == b.rest
    && a.light.Some? == b.light.Some?
    && a.highContrast.Some? == b.highContrast.Some?
    && (a.light.Some? ==> a.light.value.rest == b.light.value.rest)
    && (a.highContrast.Some? ==> a.highContrast.value.rest == b.highContrast.value.rest)
  }

  /** All three variants hold the same mapping. */
  predicate InLockstep(doc: ThemeDocument) {
    && FileNamesOf(doc, Default).Some?
    && FileNamesOf(doc, Light) == FileNamesOf(doc, Default)
    && FileNamesOf(doc, HighContrast) == FileNamesOf(doc, Default)
  }

  /** A missing mapping is initialised to the empty one. */
  function OrEmpty(m: Option<FileNames>): FileNames {
    if m.Some? then m.value else map[]
  }

  /**
    Assign the three mappings wholesale. Assigning the mappings of an
    absent section fails, and then nothing of the document is kept.
  */
  function ReplaceFileNames(doc: ThemeDocument, fileNames: FileNames, light: FileNames, highContrast: FileNames)
    : (r: Result<ThemeDocument, DocError>)
    ensures r.Success? <==> HasSections(doc)
    ensures r.Success? ==> SameApartFromFileNames(doc, r.value)
    ensures r.Success? ==>
      && FileNamesOf(r.value, Default) == Some(fileNames)
      && FileNamesOf(r.value, Light) == Some(light)
      && FileNamesOf(r.value, HighContrast) == Some(highContrast)
  {
    if !HasSections(doc) then Failure(SectionAbsent)
    else
      Success(doc.(
        fileNames := Some(fileNames),
        light := Some(doc.light.value.(fileNames := Some(light))),
        highContrast := Some(doc.highContrast.value.(fileNames := Some(highContrast)))))
  }

  /**
    Set one path to one icon in all three variants, creating any missing
    mapping first. Every other entry of every mapping stays as it was.
  */
  function SetFileName(doc: ThemeDocument, path: string, icon: string): (r: Result<ThemeDocument, DocError>)
    ensures r.Success? <==> HasSections(doc)
    ensures r.Success? ==> SameApartFromFileNames(doc, r.value)
    ensures r.Success? ==>
      forall v :: FileNamesOf(r.value, v).Some?
    ensures r.Success? ==>
      forall v, p :: Lookup(r.value, v, p) == if p == path then Some(icon) else Lookup(doc, v, p)
  {
    if !HasSections(doc) then Failure(SectionAbsent)
    else
      var light := doc.light.value;
      var highContrast := doc.highContrast.value;
      Success(doc.(
        fileNames := Some(OrEmpty(doc.fileNames)[path := icon]),
        light := Some(light.(fileNames := Some(OrEmpty(light.fileNames)[path := icon]))),
        highContrast := Some(highContrast.(fileNames := Some(OrEmpty(highContrast.fileNames)[path := icon])))))
  }

  /** Setting the same path to the same icon again changes nothing. */
  lemma SetFileNameIdempotent(doc: ThemeDocument, path: string, icon: string)
    requires SetFileName(doc, path, icon).Success?
    ensures SetFileName(SetFileName(doc, path, icon).value, path, icon) == SetFileName(doc, path, icon)
  {
    var once := SetFileName(doc, path, icon).value;
    var twice := SetFileName(once, path, icon).value;
    forall v ensures FileNamesOf(twice, v) == FileNamesOf(once, v) {
      var a := FileNamesOf(twice, v).value;
      var b := FileNamesOf(once, v).value;
      forall p ensures p in a <==> p in b {
        assert Lookup(twice, v, p) == Lookup(once, v, p);
      }
      forall p | p in a ensures a[p] == b[p] {
        assert Lookup(twice, v, p) == Lookup(once, v, p);
      }
      assert a == b;
    }
    assert FileNamesOf(twice, Default) == FileNamesOf(once, Default);
    assert FileNamesOf(twice, Light) == FileNamesOf(once, Light);
    assert FileNamesOf(twice, HighContrast) == FileNamesOf(once, HighContrast);
  }

  /** Setting one path keeps three equal mappings equal. */
  lemma SetFileNameKeepsLockstep(doc: ThemeDocument, path: string, icon: string)
    requires InLockstep(doc) && SetFileName(doc, path, icon).Success?
    ensures InLockstep(SetFileName(doc, path, icon).value)
  {
    var r := SetFileName(doc, path, icon).value;
    forall v | v != Default ensures FileNamesOf(r, v) == FileNamesOf(r, Default) {
      var a := FileNamesOf(r, v).value;
      var b := FileNamesOf(r, Default).value;
      forall p ensures p in a <==> p in b {
        assert Lookup(r, v, p) == Lookup(r, Default, p);
      }
      forall p | p in a ensures a[p] == b[p] {
        assert Lookup(r, v, p) == Lookup(r, Default, p);
      }
      assert a == b;
    }
  }

  /**
    A missing `fileNames` in a present section does not make the update
    fail: that variant ends up holding exactly the one new entry.
  */
  lemma SetFileNameInitialisesMissing(doc: ThemeDocument, v: Variant, path: string, icon: string)
    requires HasSections(doc) && FileNamesOf(doc, v).None?
    ensures SetFileName(doc, path, icon).Success?
    ensures FileNamesOf(SetFileName(doc, path, icon).value, v) == Some(map[path := icon])
  {
    var m := FileNamesOf(SetFileName(doc, path, icon).value, v).value;
    forall p ensures p in m <==> p == path {
      assert Lookup(SetFileName(doc, path, icon).value, v, p) == if p == path then Some(icon) else None;
    }
    assert m == map[path := icon];
  }

  /** Replacing the mappings twice with the same ones gives the same document. */
  lemma ReplaceIdempotent(doc: ThemeDocument, fileNames: FileNames, light: FileNames, highContrast: FileNames)
    requires ReplaceFileNames(doc, fileNames, light, highContrast).Success?
    ensures var once := ReplaceFileNames(doc, fileNames, light, highContrast).value;
      ReplaceFileNames(once, fileNames, light, highContrast) == Success(once)
  {
  }

  /**
    The replaced document does not depend on the mappings it had: two
    documents that agree apart from their mappings end up equal.
  */
  lemma ReplaceForgetsPrior(a: ThemeDocument, b: ThemeDocument, fileNames: FileNames, light: FileNames, highContrast: FileNames)
    requires SameApartFromFileNames(a, b)
    ensures ReplaceFileNames(a, fileNames, light, highContrast) == ReplaceFileNames(b, fileNames, light, highContrast)
  {
  }
}
