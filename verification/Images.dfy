/** The image slot shared by auctions and users: content-type mapping and stored file names. */
module Images {
  import opened Wrappers
  import opened Text

  /**
   * The stored extension for a request's Content-Type: everything after its first six characters,
   * lower-cased, must be png, jpeg or gif (the prefix itself is never looked at).
   */
  function ExtensionFor(contentType: string): (ext: Option<string>)
    ensures ext.Some? <==> Lower(SubstringFrom(contentType, 6)) in {"png", "jpeg", "gif"}
    ensures ext.Some? ==> ext.value in {"png", "jpg", "gif"}
    ensures ext == Some("png") <==> Lower(SubstringFrom(contentType, 6)) == "png"
    ensures ext == Some("jpg") <==> Lower(SubstringFrom(contentType, 6)) == "jpeg"
    ensures ext == Some("gif") <==> Lower(SubstringFrom(contentType, 6)) == "gif"
  {
    var kind := Lower(SubstringFrom(contentType, 6));
    if kind == "png" then Some("png")
    else if kind == "jpeg" then Some("jpg")
    else if kind == "gif" then Some("gif")
    else None
  }

  /** The reply's Content-Type for a stored file: `image/` and its last extension, lower-cased, jpg read as jpeg. */
  function ContentTypeFor(filename: string): (r: string)
    ensures |r| >= 6 && r[..6] == "image/"
    ensures r[6..] != "jpg"
    ensures var ext := Lower(LastSegment(filename, '.'));
      (r[6..] == "jpeg" <==> ext == "jpg" || ext == "jpeg") && (ext != "jpg" ==> r[6..] == ext)
  {
    var ext := Lower(LastSegment(filename, '.'));
    var kind := if ext == "jpg" then "jpeg" else ext;
    assert ("image/" + kind)[6..] == kind;
    "image/" + kind
  }

  /** The deterministic name `<kind>_<id>.<ext>` of an entity's image. */
  function Filename(kind: string, id: nat, ext: string): (r: string)
    ensures kind + "_" <= r
    ensures |r| > |ext| && r[|r| - |ext| - 1] == '.' && r[|r| - |ext|..] == ext
  {
    kind + "_" + Decimal(id) + "." + ext
  }

  /** Storing under the mapped extension and reading the type back gives the type that was uploaded. */
  lemma {:induction false} ContentTypeRoundTrip(contentType: string, kind: string, id: nat)
    requires ExtensionFor(contentType).Some?
    ensures ContentTypeFor(Filename(kind, id, ExtensionFor(contentType).value))
         == "image/" + Lower(SubstringFrom(contentType, 6))
  {
    var ext := ExtensionFor(contentType).value;
    assert '.' !in ext;
    LastSegmentAfter(kind + "_" + Decimal(id), '.', ext);
    assert kind + "_" + Decimal(id) + "." + ext == kind + "_" + Decimal(id) + ['.'] + ext;
    assert Lower(ext) == ext;
  }

  /** Every `image/<type>` with a supported type is accepted, and maps back to itself. */
  lemma ExtensionForImageTypes(kind: string)
    requires kind in {"png", "jpeg", "gif"}
    ensures ExtensionFor("image/" + kind).Some?
    ensures ContentTypeFor(Filename("auction", 0, ExtensionFor("image/" + kind).value)) == "image/" + kind
  {
    var ct := "image/" + kind;
    assert SubstringFrom(ct, 6) == kind;
    assert Lower(kind) == kind;
    ContentTypeRoundTrip(ct, "auction", 0);
  }

  /** Distinct entities of one kind never share a file name, whatever the extensions. */
  lemma {:induction false} FilenameInjective(kind: string, id1: nat, ext1: string, id2: nat, ext2: string)
    requires '.' !in ext1 && '.' !in ext2
    requires Filename(kind, id1, ext1) == Filename(kind, id2, ext2)
    ensures id1 == id2 && ext1 == ext2
  {
    var p1, p2 := kind + "_" + Decimal(id1), kind + "_" + Decimal(id2);
    assert Filename(kind, id1, ext1) == p1 + ['.'] + ext1;
    assert Filename(kind, id2, ext2) == p2 + ['.'] + ext2;
    LastSegmentAfter(p1, '.', ext1);
    LastSegmentAfter(p2, '.', ext2);
    assert p1 == Filename(kind, id1, ext1)[..|p1|];
    assert p2 == Filename(kind, id2, ext2)[..|p2|];
    assert |p1| == |p2|;
    assert Decimal(id1) == p1[|kind| + 1..] == p2[|kind| + 1..] == Decimal(id2);
    DecimalInjective(id1, id2);
  }

  /** What a successful image upload replies: 201 when the slot was empty, 200 when it replaced a reference. */
  datatype ImageReply = Created | Updated
}
