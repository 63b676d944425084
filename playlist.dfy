/** The playlist (src/playlist.rs): its validation, its cover, the cover setters, and the
    archive it is written to and read from.

    The archive is a map from entry name to bytes. `playlist.json` holds the encoded
    manifest; a cover, when there is one, is the entry named by its path. The JSON layer is
    a parameter (`JsonCodec`) of which only one thing is assumed where it matters: decoding
    what it encoded gives the manifest back. */
module Playlists {
  import opened Results
  import opened Utils
  import opened Validation
  import Beatmaps
  import Json

  // ---------------------------------------------------------------------------
  // Values
  // ---------------------------------------------------------------------------

  /** The cover's format; a cover read from a manifest starts as `Unknown` (the default). */
  datatype PlaylistCoverType = Png | Jpg | Unknown

  datatype PlaylistCover = PlaylistCover(path: string, data: seq<u8>, ty: PlaylistCoverType)

  /** The value of a playlist: what `Clone` copies, `Eq` compares and `validate` checks. */
  datatype PlaylistValue = PlaylistValue(
    title: string,
    author: Option<string>,
    description: Option<string>,
    cover: Option<PlaylistCover>,
    maps: seq<Beatmaps.Beatmap>,
    customData: Json.Map)

  // ---------------------------------------------------------------------------
  // What a valid cover and a valid playlist are
  // ---------------------------------------------------------------------------

  /** The name a cover error gives its type. */
  function CoverTypeName(ty: PlaylistCoverType): string
    requires ty != Unknown
  {
    if ty == Png then "png" else "jpg"
  }

  /** The extensions each type accepts. */
  predicate ExtensionMatches(ty: PlaylistCoverType, ext: string) {
    match ty
    case Png => ext == "png"
    case Jpg => ext == "jpg" || ext == "jpeg"
    case Unknown => false
  }

  function Signature(ty: PlaylistCoverType): seq<u8>
    requires ty != Unknown
  {
    if ty == Png then PNG_MAGIC_NUMBER else JPG_MAGIC_NUMBER
  }

  /** A valid single-segment path whose extension belongs to the cover's type. */
  predicate CoverPathMatches(c: PlaylistCover) {
    !PathIsInvalid(c.path) && ExtensionMatches(c.ty, Extension(c.path).value)
  }

  predicate CoverWellFormed(c: PlaylistCover) {
    c.ty != Unknown && CoverPathMatches(c) && HasSignature(c.data, Signature(c.ty))
  }

  predicate TitleWellFormed(p: PlaylistValue) {
    SingleLine(p.title)
  }

  predicate AuthorWellFormed(p: PlaylistValue) {
    p.author.Some? ==> SingleLine(p.author.value)
  }

  /** A description may span several lines; it only has to be non-empty. */
  predicate DescriptionWellFormed(p: PlaylistValue) {
    p.description.Some? ==> p.description.value != []
  }

  predicate CoverOk(p: PlaylistValue) {
    p.cover.Some? ==> CoverWellFormed(p.cover.value)
  }

  predicate MapsWellFormed(maps: seq<Beatmaps.Beatmap>) {
    forall i :: 0 <= i < |maps| ==> Beatmaps.WellFormed(maps[i])
  }

  predicate WellFormed(p: PlaylistValue) {
    TitleWellFormed(p) && AuthorWellFormed(p) && DescriptionWellFormed(p) && CoverOk(p) &&
    MapsWellFormed(p.maps)
  }

  // ---------------------------------------------------------------------------
  // Validation
  // ---------------------------------------------------------------------------

  /** `PlaylistCover::validate`: `Unknown` always fails; otherwise the path (valid, with an
      extension of the type) is checked before the data (the type's signature). */
  function ValidateCover(c: PlaylistCover): (r: Result<(), PlaylistCoverError>)
    ensures r.Ok? <==> CoverWellFormed(c)
    ensures c.ty == Unknown ==> r == Err(UnknownCoverType)
    ensures c.ty != Unknown && !CoverPathMatches(c) ==>
              r == Err(InvalidCoverPath(CoverTypeName(c.ty), c.path))
    ensures c.ty != Unknown && CoverPathMatches(c) && !HasSignature(c.data, Signature(c.ty)) ==>
              r == Err(InvalidCoverData(CoverTypeName(c.ty)))
  {
    match c.ty
    case Png =>
      if PathIsInvalid(c.path) || Extension(c.path).value != "png" then
        Err(InvalidCoverPath("png", c.path))
      else if |c.data| < PNG_MAGIC_NUMBER_LEN || c.data[..PNG_MAGIC_NUMBER_LEN] != PNG_MAGIC_NUMBER then
        Err(InvalidCoverData("png"))
      else
        Ok(())
    case Jpg =>
      if PathIsInvalid(c.path) then
        Err(InvalidCoverPath("jpg", c.path))
      else
        var ext := Extension(c.path).value;
        if ext != "jpg" && ext != "jpeg" then
          Err(InvalidCoverPath("jpg", c.path))
        else if |c.data| < JPG_MAGIC_NUMBER_LEN || c.data[..JPG_MAGIC_NUMBER_LEN] != JPG_MAGIC_NUMBER then
          Err(InvalidCoverData("jpg"))
        else
          Ok(())
    case Unknown =>
      Err(UnknownCoverType)
  }

  /** `Playlist::validate`: title, author, description, cover, then the maps in order,
      stopping at the first failure. */
  function Validate(p: PlaylistValue): (r: Result<(), PlaylistError>)
    ensures r.Ok? <==> WellFormed(p)
  {
    if StrIsEmptyOrHasNewlines(p.title) then
      Err(PlaylistError.InvalidField("title", p.title))
    else if p.author.Some? && StrIsEmptyOrHasNewlines(p.author.value) then
      Err(PlaylistError.InvalidField("author", p.author.value))
    else if p.description.Some? && p.description.value == [] then
      Err(PlaylistError.InvalidField("description", p.description.value))
    else if p.cover.Some? && ValidateCover(p.cover.value).Err? then
      Err(InvalidCover(ValidateCover(p.cover.value).error))
    else
      match FirstErr(p.maps, Beatmaps.Validate, 0)
      case Some((idx, error)) => Err(InvalidBeatmap(idx, error))
      case None => Ok(())
  }

  /** Which error is reported when several checks would fail: the first in the order
      title, author, description, cover; a cover error is passed on unchanged. */
  lemma ValidateReportsFieldsInOrder(p: PlaylistValue)
    ensures !TitleWellFormed(p) ==>
              Validate(p) == Err(PlaylistError.InvalidField("title", p.title))
    ensures TitleWellFormed(p) && !AuthorWellFormed(p) ==>
              Validate(p) == Err(PlaylistError.InvalidField("author", p.author.value))
    ensures TitleWellFormed(p) && AuthorWellFormed(p) && !DescriptionWellFormed(p) ==>
              Validate(p) == Err(PlaylistError.InvalidField("description", ""))
    ensures TitleWellFormed(p) && AuthorWellFormed(p) && DescriptionWellFormed(p) && !CoverOk(p) ==>
              Validate(p) == Err(InvalidCover(ValidateCover(p.cover.value).error))
  {
  }

  /** Once the fields and the cover pass, the first invalid map is reported with its index
      and its own error. */
  lemma ValidateReportsFirstBadMap(p: PlaylistValue, i: nat)
    requires TitleWellFormed(p) && AuthorWellFormed(p) && DescriptionWellFormed(p) && CoverOk(p)
    requires i < |p.maps| && !Beatmaps.WellFormed(p.maps[i])
    requires forall j :: 0 <= j < i ==> Beatmaps.WellFormed(p.maps[j])
    ensures Validate(p) == Err(InvalidBeatmap(i, Beatmaps.Validate(p.maps[i]).error))
  {
  }

  /** The cover examples of the format: PNG bytes under `cover.png` pass as a PNG cover,
      fail as a JPEG cover, and fail when cut short; a nested path fails as a path error. */
  lemma CoverExamples(rest: seq<u8>)
    ensures ValidateCover(PlaylistCover("cover.png", PNG_MAGIC_NUMBER + rest, Png)).Ok?
    ensures ValidateCover(PlaylistCover("cover.png", PNG_MAGIC_NUMBER + rest, Jpg)) ==
            Err(InvalidCoverPath("jpg", "cover.png"))
    ensures ValidateCover(PlaylistCover("cover.png", PNG_MAGIC_NUMBER[..7], Png)) ==
            Err(InvalidCoverData("png"))
    ensures ValidateCover(PlaylistCover("subdirectory/cover.jpg", JPG_MAGIC_NUMBER + rest, Jpg)) ==
            Err(InvalidCoverPath("jpg", "subdirectory/cover.jpg"))
  {
    CoverFileNames();
    assert (PNG_MAGIC_NUMBER + rest)[..8] == PNG_MAGIC_NUMBER;
  }

  /** The covers the setters build (`cover.png` as PNG, `cover.jpg` as JPEG) are valid
      exactly when their bytes start with the signature of their type. */
  lemma SetterCoversValidIff(data: seq<u8>)
    ensures ValidateCover(PlaylistCover("cover.png", data, Png)).Ok? <==> HasSignature(data, PNG_MAGIC_NUMBER)
    ensures ValidateCover(PlaylistCover("cover.jpg", data, Jpg)).Ok? <==> HasSignature(data, JPG_MAGIC_NUMBER)
  {
    CoverFileNames();
  }

  // ---------------------------------------------------------------------------
  // The archive
  // ---------------------------------------------------------------------------

  /** A zip archive: entry name to entry bytes. */
  type Archive = map<string, seq<u8>>

  const MANIFEST_NAME: string := "playlist.json"

  /** What `playlist.json` holds: the playlist with its cover reduced to the path, since a
      cover's `data` and `ty` are not serialised. */
  datatype Manifest = Manifest(
    title: string,
    author: Option<string>,
    description: Option<string>,
    cover: Option<string>,
    maps: seq<Beatmaps.Beatmap>,
    customData: Json.Map)

  /** `serde_json::to_writer` and `serde_json::from_reader` on the manifest. */
  datatype JsonCodec = JsonCodec(encode: Manifest -> seq<u8>, decode: seq<u8> -> Option<Manifest>)

  /** Decoding what was encoded gives the same manifest. */
  ghost predicate Lossless(codec: JsonCodec) {
    forall m :: codec.decode(codec.encode(m)) == Some(m)
  }

  /** `src/error.rs`, reduced to the failures this model can produce. */
  datatype Error =
    | ZipError(missing: string)
    | JsonError
    | ValidationError(error: PlaylistError)

  /** The serialised form of a playlist: every field but the cover's `data` and `ty`, which
      are skipped; the cover is written as its path. */
  function ToManifest(p: PlaylistValue): (m: Manifest)
    ensures m.title == p.title && m.author == p.author && m.description == p.description
    ensures m.maps == p.maps && m.customData == p.customData
    ensures m.cover.Some? <==> p.cover.Some?
    ensures p.cover.Some? ==> m.cover == Some(p.cover.value.path)
  {
    Manifest(p.title, p.author, p.description,
             if p.cover.Some? then Some(p.cover.value.path) else None,
             p.maps, p.customData)
  }

  /** A freshly deserialised playlist: a cover has its path only, no bytes and type `Unknown`. */
  function FromManifest(m: Manifest): (p: PlaylistValue)
    ensures ToManifest(p) == m
    ensures p.cover.Some? ==> p.cover.value.data == [] && p.cover.value.ty == Unknown
  {
    PlaylistValue(m.title, m.author, m.description,
                  if m.cover.Some? then Some(PlaylistCover(m.cover.value, [], Unknown)) else None,
                  m.maps, m.customData)
  }

  /** Two playlists that differ at most in their cover's `data` and `ty`. */
  predicate SameButCoverContents(p: PlaylistValue, q: PlaylistValue) {
    p.title == q.title && p.author == q.author && p.description == q.description &&
    p.maps == q.maps && p.customData == q.customData &&
    p.cover.Some? == q.cover.Some? &&
    (p.cover.Some? ==> p.cover.value.path == q.cover.value.path)
  }

  /** Serialisation forgets exactly the cover's bytes and type. */
  lemma ToManifestForgetsOnlyCoverContents(p: PlaylistValue, q: PlaylistValue)
    ensures ToManifest(p) == ToManifest(q) <==> SameButCoverContents(p, q)
  {
  }

  /** A valid cover can never be stored under the manifest's name. */
  lemma ValidCoverIsNotManifest(c: PlaylistCover)
    requires CoverWellFormed(c)
    ensures c.path != MANIFEST_NAME
  {
  }

  /** `Playlist::write`: validation first (nothing is written for an invalid playlist), then
      the manifest, then the cover bytes under the cover's path. */
  function WriteArchive(p: PlaylistValue, codec: JsonCodec): (r: Result<Archive, Error>)
    ensures r.Err? <==> !WellFormed(p)
    ensures r.Err? ==> r.error == ValidationError(Validate(p).error)
    ensures r.Ok? ==>
              r.value.Keys == (if p.cover.Some? then {MANIFEST_NAME, p.cover.value.path} else {MANIFEST_NAME}) &&
              r.value[MANIFEST_NAME] == codec.encode(ToManifest(p)) &&
              (p.cover.Some? ==> r.value[p.cover.value.path] == p.cover.value.data)
  {
    if Validate(p).Err? then
      Err(ValidationError(Validate(p).error))
    else
      var zip := map[MANIFEST_NAME := codec.encode(ToManifest(p))];
      if p.cover.Some? then
        ValidCoverIsNotManifest(p.cover.value);
        Ok(zip[p.cover.value.path := p.cover.value.data])
      else
        Ok(zip)
  }

  /** `zip.by_name(path)?` followed by `read_to_end(&mut c.data)`. */
  function ReadEntry(c: PlaylistCover, zip: Archive): Result<PlaylistCover, Error> {
    if c.path in zip then Ok(c.(data := c.data + zip[c.path])) else Err(ZipError(c.path))
  }

  /** The cover step of `Playlist::read`, on a cover just deserialised from `path`: a
      valid path with extension `png` makes a PNG cover, `jpg` or `jpeg` a JPEG cover, each
      filled from the entry of that name; any other path or extension leaves the cover as
      deserialised, with no bytes and type `Unknown`. */
  function LoadCover(path: string, zip: Archive): (r: Result<PlaylistCover, Error>)
    ensures r.Ok? ==> r.value.path == path
    ensures r.Ok? && r.value.ty != Unknown ==>
              CoverPathMatches(r.value) && path in zip && r.value.data == zip[path]
    ensures r.Ok? && r.value.ty == Unknown ==>
              r.value.data == [] && (PathIsInvalid(path) || Extension(path).value !in {"png", "jpg", "jpeg"})
    ensures r.Err? <==> !PathIsInvalid(path) && Extension(path).value in {"png", "jpg", "jpeg"} && path !in zip
    ensures r.Err? ==> r.error == ZipError(path)
    ensures PathIsInvalid(path) || Extension(path).value !in {"png", "jpg", "jpeg"} ==>
              r == Ok(PlaylistCover(path, [], Unknown))
  {
    var c := PlaylistCover(path, [], Unknown);
    if PathIsInvalid(c.path) then
      Ok(c)
    else
      var ext := Extension(c.path).value;
      if ext == "png" then ReadEntry(c.(ty := Png), zip)
      else if ext == "jpg" || ext == "jpeg" then ReadEntry(c.(ty := Jpg), zip)
      else Ok(c)
  }

  /** The playlist the manifest `m` and the cover step give, before validation. */
  function Loaded(m: Manifest, zip: Archive): Result<PlaylistValue, Error> {
    var p := FromManifest(m);
    if p.cover.None? then Ok(p)
    else match LoadCover(p.cover.value.path, zip)
      case Err(e) => Err(e)
      case Ok(c) => Ok(p.(cover := Some(c)))
  }

  /** `Playlist::read`: the manifest, then the cover, then validation, each failure reported
      as it happens. Whatever it returns is valid, agrees with the manifest, and holds the
      cover entry's bytes. */
  function ReadArchive(zip: Archive, codec: JsonCodec): (r: Result<PlaylistValue, Error>)
    ensures MANIFEST_NAME !in zip ==> r == Err(ZipError(MANIFEST_NAME))
    ensures MANIFEST_NAME in zip && codec.decode(zip[MANIFEST_NAME]).None? ==> r == Err(JsonError)
    ensures MANIFEST_NAME in zip && codec.decode(zip[MANIFEST_NAME]).Some? ==>
              var m := codec.decode(zip[MANIFEST_NAME]).value;
              (m.cover.Some? && LoadCover(m.cover.value, zip).Err? ==> r == Err(ZipError(m.cover.value))) &&
              (m.cover.None? ==> Loaded(m, zip) == Ok(FromManifest(m))) &&
              (Loaded(m, zip).Ok? && WellFormed(Loaded(m, zip).value) ==> r == Ok(Loaded(m, zip).value)) &&
              (Loaded(m, zip).Ok? && !WellFormed(Loaded(m, zip).value) ==>
                 r == Err(ValidationError(Validate(Loaded(m, zip).value).error)))
    ensures r.Ok? ==> WellFormed(r.value)
    ensures r.Ok? ==> MANIFEST_NAME in zip && codec.decode(zip[MANIFEST_NAME]) == Some(ToManifest(r.value))
    ensures r.Ok? && r.value.cover.Some? ==>
              r.value.cover.value.path in zip && r.value.cover.value.data == zip[r.value.cover.value.path]
  {
    if MANIFEST_NAME !in zip then
      Err(ZipError(MANIFEST_NAME))
    else
      match codec.decode(zip[MANIFEST_NAME])
      case None => Err(JsonError)
      case Some(m) =>
        match Loaded(m, zip)
        case Err(e) => Err(e)
        case Ok(q) =>
          if Validate(q).Err? then Err(ValidationError(Validate(q).error)) else Ok(q)
  }

  /** A manifest naming a cover whose path is invalid or has an extension no type accepts
      cannot be read: the cover stays `Unknown` and validation rejects it. */
  lemma ReadRejectsUnrecognisedCover(zip: Archive, codec: JsonCodec, m: Manifest)
    requires MANIFEST_NAME in zip && codec.decode(zip[MANIFEST_NAME]) == Some(m)
    requires m.cover.Some?
    requires PathIsInvalid(m.cover.value) ||
             Extension(m.cover.value).value !in {"png", "jpg", "jpeg"}
    requires TitleWellFormed(FromManifest(m)) && AuthorWellFormed(FromManifest(m)) &&
             DescriptionWellFormed(FromManifest(m))
    ensures ReadArchive(zip, codec) == Err(ValidationError(InvalidCover(UnknownCoverType)))
  {
  }

  /** The converse: an archive whose manifest entry decodes to the manifest of a valid
      playlist and whose cover entry holds that playlist's cover bytes is read as that
      playlist, whatever other entries it holds. */
  lemma ReadAcceptsValidArchive(zip: Archive, codec: JsonCodec, p: PlaylistValue)
    requires WellFormed(p)
    requires MANIFEST_NAME in zip && codec.decode(zip[MANIFEST_NAME]) == Some(ToManifest(p))
    requires p.cover.Some? ==> p.cover.value.path in zip && p.cover.value.data == zip[p.cover.value.path]
    ensures ReadArchive(zip, codec) == Ok(p)
  {
    if p.cover.Some? {
      ValidPathHasExtension(p.cover.value.path);
    }
  }

  /** The round trip: a valid playlist written to an archive reads back as itself. */
  lemma ReadWriteRoundTrip(p: PlaylistValue, codec: JsonCodec)
    requires Lossless(codec)
    requires WellFormed(p)
    ensures WriteArchive(p, codec).Ok?
    ensures ReadArchive(WriteArchive(p, codec).value, codec) == Ok(p)
  {
  }

  // ---------------------------------------------------------------------------
  // The playlist object
  // ---------------------------------------------------------------------------

  class Playlist {
    var title: string
    var author: Option<string>
    var description: Option<string>
    var cover: Option<PlaylistCover>
    var maps: seq<Beatmaps.Beatmap>
    var customData: Json.Map

    /** The value the fields hold together. */
    function Value(): PlaylistValue
      reads this
    {
      PlaylistValue(title, author, description, cover, maps, customData)
    }

    /** A playlist given field by field (a struct literal). */
    constructor (v: PlaylistValue)
      ensures Value() == v
    {
      title := v.title;
      author := v.author;
      description := v.description;
      cover := v.cover;
      maps := v.maps;
      customData := v.customData;
    }

    /** `Playlist::new`: only the title; valid exactly when the title is. */
    constructor New(title: string)
      ensures Value() == PlaylistValue(title, None, None, None, [], map[])
      ensures Validate(Value()).Ok? <==> SingleLine(title)
    {
      this.title := title;
      author := None;
      description := None;
      cover := None;
      maps := [];
      customData := map[];
    }

    /** `set_png_cover`: the cover becomes `cover.png` with the given bytes and type PNG,
        replacing any earlier cover; nothing else changes. The reader is its bytes. */
    method SetPngCover(data: seq<u8>)
      modifies this
      ensures Value() == old(Value()).(cover := Some(PlaylistCover("cover.png", data, Png)))
      ensures ValidateCover(cover.value).Ok? <==> HasSignature(data, PNG_MAGIC_NUMBER)
    {
      var path := "cover.png";
      var ty := Png;
      if cover.Some? {
        cover := Some(cover.value.(path := path, data := data, ty := ty));
      } else {
        cover := Some(PlaylistCover(path, data, ty));
      }
      SetterCoversValidIff(data);
    }

    /** `set_jpg_cover`: as `SetPngCover`, with `cover.jpg` and type JPEG. */
    method SetJpgCover(data: seq<u8>)
      modifies this
      ensures Value() == old(Value()).(cover := Some(PlaylistCover("cover.jpg", data, Jpg)))
      ensures ValidateCover(cover.value).Ok? <==> HasSignature(data, JPG_MAGIC_NUMBER)
    {
      var path := "cover.jpg";
      var ty := Jpg;
      if cover.Some? {
        cover := Some(cover.value.(path := path, data := data, ty := ty));
      } else {
        cover := Some(PlaylistCover(path, data, ty));
      }
      SetterCoversValidIff(data);
    }

    /** `Playlist::write`, entry by entry. */
    method Write(codec: JsonCodec) returns (r: Result<Archive, Error>)
      ensures r == WriteArchive(Value(), codec)
    {
      var validation := Validate(Value());
      if validation.Err? {
        return Err(ValidationError(validation.error));
      }
      var zip: Archive := map[];
      zip := zip[MANIFEST_NAME := codec.encode(ToManifest(Value()))];
      if cover.Some? {
        zip := zip[cover.value.path := cover.value.data];
      }
      return Ok(zip);
    }

    /** `Playlist::read`: deserialise the manifest, complete the cover in place from its
        entry, validate. */
    static method Read(zip: Archive, codec: JsonCodec) returns (r: Result<Playlist, Error>)
      ensures r.Ok? ==> fresh(r.value) && ReadArchive(zip, codec) == Ok(r.value.Value())
      ensures r.Err? ==> ReadArchive(zip, codec) == Err(r.error)
    {
      if MANIFEST_NAME !in zip {
        return Err(ZipError(MANIFEST_NAME));
      }
      var decoded := codec.decode(zip[MANIFEST_NAME]);
      if decoded.None? {
        return Err(JsonError);
      }
      var playlist := new Playlist(FromManifest(decoded.value));
      if playlist.cover.Some? && !PathIsInvalid(playlist.cover.value.path) {
        var path := playlist.cover.value.path;
        var ext := Extension(path).value;
        if ext == "png" || ext == "jpg" || ext == "jpeg" {
          playlist.cover := Some(playlist.cover.value.(ty := if ext == "png" then Png else Jpg));
          if path !in zip {
            return Err(ZipError(path));
          }
          playlist.cover := Some(playlist.cover.value.(data := playlist.cover.value.data + zip[path]));
        }
      }
      var validation := Validate(playlist.Value());
      if validation.Err? {
        return Err(ValidationError(validation.error));
      }
      return Ok(playlist);
    }
  }
}
