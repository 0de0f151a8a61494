/** Derivation of the local file name of a document from its META part
    (DocSyncer.__updateFileName before the rename): a stem and an
    extension, each taken from an ordered chain of fallbacks. */
module Naming {
  import opened Types
  import PathText
  import Hex

  /** The fields of the "org.hotchpotch.annotation" record. */
  type Fields = map<string, string>

  /** A decoded META part: its annotation record, if any, and every other
      top-level entry kept as an opaque serialised value. */
  datatype Meta = Meta(annotation: Option<Fields>, others: map<string, string>)

  /** What __updateFileName works on when reading META raised IOError. */
  const EmptyMeta: Meta := Meta(None, map[])

  const TitleKey: string := "title"
  const OriginKey: string := "origin"
  const DefaultExt: string := ".bin"

  /** A file name as the stem and the extension it was assembled from. */
  datatype Leaf = Leaf(name: string, ext: string)
  {
    function FileName(): string
    {
      name + ext
    }
  }

  /** splitext of an annotation field, or two empty strings when the field
      is absent. */
  function SplitField(ann: Fields, key: string): (string, string)
  {
    if key in ann then PathText.SplitExt(ann[key]) else ([], [])
  }

  /** The stem and extension of a document's file name. `exts` are the
      extensions the type registry lists for the revision's type, first
      choice first. With no annotation record the source reads the unbound
      name `annotation` and raises NameError, reported as
      AnnotationUnbound. */
  function DeriveLeaf(meta: Meta, doc: Bytes, exts: seq<string>): (r: Result<Leaf>)
    ensures r.Err? <==> meta.annotation.None?
    ensures r.Err? ==> r.failure == AnnotationUnbound
    ensures r.Ok? ==> r.value.ext != []
    ensures r.Ok? ==>
      var ann := meta.annotation.value;
      var titleStem := SplitField(ann, TitleKey).0;
      var originStem := SplitField(ann, OriginKey).0;
      && (titleStem != [] ==> r.value.name == titleStem)
      && (titleStem == [] && originStem != [] ==> r.value.name == originStem)
      && (titleStem == [] && originStem == [] ==> r.value.name == Hex.Encode(doc))
    ensures r.Ok? ==>
      var ann := meta.annotation.value;
      var titleExt := SplitField(ann, TitleKey).1;
      var originExt := SplitField(ann, OriginKey).1;
      var registered := |exts| > 0 && exts[0] != [];
      && (titleExt != [] ==> r.value.ext == titleExt)
      && (titleExt == [] && registered ==> r.value.ext == exts[0])
      && (titleExt == [] && !registered && originExt != [] ==> r.value.ext == originExt)
      && (titleExt == [] && !registered && originExt == [] ==> r.value.ext == DefaultExt)
  {
    match meta.annotation
    case None => Err(AnnotationUnbound)
    case Some(ann) =>
      var (titleName, titleExt) := SplitField(ann, TitleKey);
      var name1 := if titleName == [] then SplitField(ann, OriginKey).0 else titleName;
      var name := if name1 == [] then Hex.Encode(doc) else name1;
      var ext1 := if titleExt == [] && |exts| > 0 then exts[0] else titleExt;
      var ext2 := if ext1 == [] then SplitField(ann, OriginKey).1 else ext1;
      var ext := if ext2 == [] then DefaultExt else ext2;
      Ok(Leaf(name, ext))
  }

  /** A title that has both a stem and an extension is used verbatim as the
      file name. */
  lemma TitleIsFileName(meta: Meta, doc: Bytes, exts: seq<string>)
    requires meta.annotation.Some? && TitleKey in meta.annotation.value
    requires var t := PathText.SplitExt(meta.annotation.value[TitleKey]); t.0 != [] && t.1 != []
    ensures DeriveLeaf(meta, doc, exts) == Ok(Leaf(PathText.Stem(meta.annotation.value[TitleKey]),
                                                   PathText.Extension(meta.annotation.value[TitleKey])))
    ensures DeriveLeaf(meta, doc, exts).value.FileName() == meta.annotation.value[TitleKey]
  {
  }

  /** Without a usable title and without a registry extension, a document
      imported from a file gets that file's name back. */
  lemma OriginIsFileName(meta: Meta, doc: Bytes)
    requires meta.annotation.Some? && TitleKey !in meta.annotation.value
    requires OriginKey in meta.annotation.value
    requires var o := PathText.SplitExt(meta.annotation.value[OriginKey]); o.0 != [] && o.1 != []
    ensures DeriveLeaf(meta, doc, []).Ok?
    ensures DeriveLeaf(meta, doc, []).value.FileName() == meta.annotation.value[OriginKey]
  {
  }

  /** When neither title nor origin gives a stem, the stem is the hex form
      of the document id and decodes back to that id. */
  lemma HexStemNamesDocument(meta: Meta, doc: Bytes, exts: seq<string>)
    requires meta.annotation.Some?
    requires TitleKey !in meta.annotation.value && OriginKey !in meta.annotation.value
    ensures DeriveLeaf(meta, doc, exts).Ok?
    ensures Hex.Decode(DeriveLeaf(meta, doc, exts).value.name) == Some(doc)
  {
    Hex.DecodeEncode(doc);
  }
}
