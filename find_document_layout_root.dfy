/** `findDocumentLayoutRoot` (src/utils/findDocumentLayoutRoot.ts): the text of
    `appPath/document.html`, or a fixed default document when the file is
    missing or cannot be read. */
module DocumentLayout {
  import opened Wrappers
  import opened Strings
  import opened Files
  import opened Composition

  const DocumentFile: string := "document.html"

  /** The default document before its `{{content}}`, written out in pieces
      so that each piece can be inspected on its own. */
  const Doctype: string := "<!DOCTYPE html><html lang=\"en\">"
  const MetaCharset: string := "<head><meta charset=\"UTF-8\">"
  const ViewportName: string := "<meta name=\"viewport\" "
  const ViewportWidth: string := "content=\"width=device-width, "
  const ViewportScale: string := "initial-scale=1.0\">"
  const TitleAndBody: string := "<title>Ten.net</title></head><body>"
  const DefaultHead: string :=
    Doctype + MetaCharset + ViewportName + ViewportWidth + ViewportScale + TitleAndBody

  /** The default document after its `{{content}}`. */
  const DefaultTail: string := "</body></html>"
  const DefaultDocument: string := DefaultHead + ContentPlaceholder + DefaultTail

  /** `findDocumentLayoutRoot(appPath)`: `lstat` then read; any failure gives
      the default. */
  function DocumentLayoutRoot(fs: FileSystem, appPath: string): (doc: string)
    ensures ReadText(fs, appPath + "/" + DocumentFile).Some? ==>
      doc == ReadText(fs, appPath + "/" + DocumentFile).value
    ensures ReadText(fs, appPath + "/" + DocumentFile).None? ==> doc == DefaultDocument
  {
    var rootLayoutPath := appPath + "/" + DocumentFile;
    if !Exists(fs, rootLayoutPath) then DefaultDocument
    else
      match ReadText(fs, rootLayoutPath)
      case Some(text) => text
      case None => DefaultDocument
  }

  /** A missing file, or one that exists but cannot be read, gives the
      default; a readable one (even an empty one) gives its exact text. */
  lemma DocumentCases(fs: FileSystem, appPath: string)
    ensures Canonical(appPath + "/" + DocumentFile) !in fs ==> DocumentLayoutRoot(fs, appPath) == DefaultDocument
    ensures Canonical(appPath + "/" + DocumentFile) in fs && fs[Canonical(appPath + "/" + DocumentFile)] == Unreadable ==>
      DocumentLayoutRoot(fs, appPath) == DefaultDocument
    ensures Canonical(appPath + "/" + DocumentFile) in fs && fs[Canonical(appPath + "/" + DocumentFile)] == Readable("") ==>
      DocumentLayoutRoot(fs, appPath) == ""
  {
  }

  /** `{{content}}` occurs exactly once in a template whose text around it
      holds no `{`. */
  lemma OnlyOccurrence(h: string, t: string)
    requires '{' !in h && '{' !in t
    ensures forall i: nat :: OccursAt(h + ContentPlaceholder + t, ContentPlaceholder, i) <==> i == |h|
  {
    var s := h + ContentPlaceholder + t;
    assert s[|h|..|h| + |ContentPlaceholder|] == ContentPlaceholder;
    forall i: nat | OccursAt(s, ContentPlaceholder, i) ensures i == |h| {
      assert s[i] == ContentPlaceholder[0] == '{';
      assert s[i + 1] == ContentPlaceholder[1] == '{';
    }
  }

  /** The default document holds `{{content}}` exactly once, right after its
      head. */
  lemma DefaultHasOnePlaceholder()
    ensures forall i: nat :: OccursAt(DefaultDocument, ContentPlaceholder, i) <==> i == |DefaultHead|
  {
    HeadPiecesBraceFree();
    TailPiecesBraceFree();
    OnlyOccurrence(DefaultHead, DefaultTail);
  }

  lemma HeadPiecesBraceFree()
    ensures '{' !in Doctype && '{' !in MetaCharset && '{' !in ViewportName
  {
  }

  lemma TailPiecesBraceFree()
    ensures '{' !in ViewportWidth && '{' !in ViewportScale && '{' !in TitleAndBody
    ensures '{' !in DefaultTail
  {
  }

  /** Wrapping the default document around a page puts the page between the
      default head and tail. */
  lemma DefaultWrap(page: string)
    ensures ReplaceFirst(DefaultDocument, ContentPlaceholder, page) == DefaultHead + page + DefaultTail
  {
    DefaultHasOnePlaceholder();
    ReplaceFirstAt(DefaultHead, ContentPlaceholder, DefaultTail, page);
  }
}
