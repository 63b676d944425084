/** The converter from the legacy playlist document (converter/src/legacy.rs): songs become
    beatmaps whose type is inferred from the identifiers they carry, custom data is kept or
    dropped as asked, and a base64 `image` becomes a PNG or JPEG cover when its bytes carry
    the matching signature. */
module Legacy {
  import opened Results
  import opened Utils
  import Beatmaps
  import Validation
  import Playlists
  import Json

  datatype LegacyBeatmap = LegacyBeatmap(
    key: Option<string>,
    hash: Option<string>,
    date: Option<Beatmaps.DateTime>,
    customData: Json.Map)

  datatype LegacyPlaylist = LegacyPlaylist(
    title: string,
    author: Option<string>,
    description: Option<string>,
    maps: seq<LegacyBeatmap>,
    cover: Option<string>,
    customData: Json.Map)

  /** `base64::decode`: the bytes the text stands for, or `None` when it is not base64. */
  type Base64Decoder = string -> Option<seq<u8>>

  /** The only way a conversion fails: the image is not base64. */
  datatype ConversionError = Base64Error

  /** Custom data survives only when it is to be preserved. */
  function KeepCustomData(preserve: bool, data: Json.Map): Json.Map {
    if preserve then data else map[]
  }

  // ---------------------------------------------------------------------------
  // Songs
  // ---------------------------------------------------------------------------

  /** A key wins over a hash; a song with neither is taken to be a level id. */
  function InferType(m: LegacyBeatmap): (ty: Beatmaps.BeatmapType)
    ensures ty == Beatmaps.Key <==> m.key.Some?
    ensures ty == Beatmaps.Hash <==> m.key.None? && m.hash.Some?
    ensures ty == Beatmaps.LevelId <==> m.key.None? && m.hash.None?
  {
    if m.key.Some? then Beatmaps.Key
    else if m.hash.Some? then Beatmaps.Hash
    else Beatmaps.LevelId
  }

  /** `LegacyBeatmap::into_beatmap`, which never fails: identifiers and date copied, no
      level id, no difficulties. The declared type has its identifier exactly when the song
      has a key or a hash. */
  function IntoBeatmap(m: LegacyBeatmap, preserve: bool): (b: Beatmaps.Beatmap)
    ensures b.ty == InferType(m)
    ensures b.key == m.key && b.hash == m.hash && b.date == m.date
    ensures b.levelId.None? && b.difficulties == []
    ensures b.customData == (if preserve then m.customData else map[])
    ensures Beatmaps.HasIdentifierForType(b) <==> m.key.Some? || m.hash.Some?
  {
    Beatmaps.Beatmap(InferType(m), m.date, [], m.key, m.hash, None, KeepCustomData(preserve, m.customData))
  }

  /** A song converts to a valid beatmap: it has a key or a hash, and each one it has is
      well formed. */
  predicate SongWellFormed(m: LegacyBeatmap) {
    (m.key.Some? || m.hash.Some?) &&
    (m.key.Some? ==> Beatmaps.KeyWellFormed(m.key.value)) &&
    (m.hash.Some? ==> Beatmaps.HashWellFormed(m.hash.value))
  }

  lemma IntoBeatmapValidIff(m: LegacyBeatmap, preserve: bool)
    ensures Beatmaps.Validate(IntoBeatmap(m, preserve)).Ok? <==> SongWellFormed(m)
  {
  }

  /** A song with neither key nor hash becomes a level-id beatmap without a level id, which
      validation rejects as a type mismatch. */
  lemma SongWithoutIdentifierIsRejected(m: LegacyBeatmap, preserve: bool)
    requires m.key.None? && m.hash.None?
    ensures IntoBeatmap(m, preserve).ty == Beatmaps.LevelId && IntoBeatmap(m, preserve).levelId.None?
    ensures Beatmaps.Validate(IntoBeatmap(m, preserve)) ==
            Err(Validation.MismatchedType("levelID", "levelID"))
  {
  }

  // ---------------------------------------------------------------------------
  // The cover
  // ---------------------------------------------------------------------------

  /** The cover type the decoded image is sniffed as, PNG tested first; `Unknown` means the
      image is dropped. The order of the tests does not matter: no bytes carry both
      signatures. */
  function SniffCoverType(data: seq<u8>): (ty: Playlists.PlaylistCoverType)
    ensures ty == Playlists.Png <==> HasSignature(data, PNG_MAGIC_NUMBER)
    ensures ty == Playlists.Jpg <==> HasSignature(data, JPG_MAGIC_NUMBER)
  {
    SignaturesDisjoint(data);
    if |data| >= PNG_MAGIC_NUMBER_LEN && data[..PNG_MAGIC_NUMBER_LEN] == PNG_MAGIC_NUMBER then
      Playlists.Png
    else if |data| >= JPG_MAGIC_NUMBER_LEN && data[..JPG_MAGIC_NUMBER_LEN] == JPG_MAGIC_NUMBER then
      Playlists.Jpg
    else
      Playlists.Unknown
  }

  // ---------------------------------------------------------------------------
  // The playlist
  // ---------------------------------------------------------------------------

  /** The playlist `into_playlist` builds, as a value. */
  function IntoPlaylistValue(lp: LegacyPlaylist, preserve: bool, decode: Base64Decoder)
    : (r: Result<Playlists.PlaylistValue, ConversionError>)
    ensures r.Err? <==> lp.cover.Some? && decode(lp.cover.value).None?
    ensures r.Ok? ==>
              r.value.title == lp.title && r.value.author == lp.author &&
              r.value.description == lp.description &&
              r.value.customData == (if preserve then lp.customData else map[])
    ensures r.Ok? ==>
              |r.value.maps| == |lp.maps| &&
              forall i :: 0 <= i < |lp.maps| ==> r.value.maps[i] == IntoBeatmap(lp.maps[i], preserve)
    ensures r.Ok? && lp.cover.None? ==> r.value.cover.None?
    ensures r.Ok? && lp.cover.Some? ==>
              var data := decode(lp.cover.value).value;
              (HasSignature(data, PNG_MAGIC_NUMBER) ==>
                 r.value.cover == Some(Playlists.PlaylistCover("cover.png", data, Playlists.Png))) &&
              (HasSignature(data, JPG_MAGIC_NUMBER) ==>
                 r.value.cover == Some(Playlists.PlaylistCover("cover.jpg", data, Playlists.Jpg))) &&
              (!HasSignature(data, PNG_MAGIC_NUMBER) && !HasSignature(data, JPG_MAGIC_NUMBER) ==>
                 r.value.cover.None?)
  {
    var maps := seq(|lp.maps|, i requires 0 <= i < |lp.maps| => IntoBeatmap(lp.maps[i], preserve));
    var playlist := Playlists.PlaylistValue(lp.title, lp.author, lp.description, None, maps,
                                            KeepCustomData(preserve, lp.customData));
    if lp.cover.None? then
      Ok(playlist)
    else
      match decode(lp.cover.value)
      case None => Err(Base64Error)
      case Some(data) =>
        match SniffCoverType(data)
        case Png => Ok(playlist.(cover := Some(Playlists.PlaylistCover("cover.png", data, Playlists.Png))))
        case Jpg => Ok(playlist.(cover := Some(Playlists.PlaylistCover("cover.jpg", data, Playlists.Jpg))))
        case Unknown => Ok(playlist)
  }

  /** `LegacyPlaylist::into_playlist`: builds the playlist, then sets its cover in place. */
  method IntoPlaylist(lp: LegacyPlaylist, preserve: bool, decode: Base64Decoder)
    returns (r: Result<Playlists.Playlist, ConversionError>)
    ensures r.Ok? ==> fresh(r.value) && IntoPlaylistValue(lp, preserve, decode) == Ok(r.value.Value())
    ensures r.Err? ==> IntoPlaylistValue(lp, preserve, decode) == Err(r.error)
  {
    var maps := seq(|lp.maps|, i requires 0 <= i < |lp.maps| => IntoBeatmap(lp.maps[i], preserve));
    var playlist := new Playlists.Playlist(
      Playlists.PlaylistValue(lp.title, lp.author, lp.description, None, maps,
                              KeepCustomData(preserve, lp.customData)));
    if lp.cover.Some? {
      var decoded := decode(lp.cover.value);
      if decoded.None? {
        return Err(Base64Error);
      }
      var data := decoded.value;
      if |data| >= PNG_MAGIC_NUMBER_LEN && data[..PNG_MAGIC_NUMBER_LEN] == PNG_MAGIC_NUMBER {
        playlist.SetPngCover(data);
      } else if |data| >= JPG_MAGIC_NUMBER_LEN && data[..JPG_MAGIC_NUMBER_LEN] == JPG_MAGIC_NUMBER {
        playlist.SetJpgCover(data);
      }
    }
    return Ok(playlist);
  }

  /** Whatever cover the conversion attaches passes cover validation. */
  lemma ConvertedCoverIsValid(lp: LegacyPlaylist, preserve: bool, decode: Base64Decoder)
    requires IntoPlaylistValue(lp, preserve, decode).Ok?
    requires IntoPlaylistValue(lp, preserve, decode).value.cover.Some?
    ensures Playlists.ValidateCover(IntoPlaylistValue(lp, preserve, decode).value.cover.value).Ok?
  {
    var data := decode(lp.cover.value).value;
    Playlists.SetterCoversValidIff(data);
  }

  /** A converted playlist is valid exactly when its title, author and description are and
      every song has a well-formed key or hash: the cover never spoils it. */
  lemma ConvertedPlaylistValidIff(lp: LegacyPlaylist, preserve: bool, decode: Base64Decoder)
    requires IntoPlaylistValue(lp, preserve, decode).Ok?
    ensures Playlists.Validate(IntoPlaylistValue(lp, preserve, decode).value).Ok? <==>
              SingleLine(lp.title) &&
              (lp.author.Some? ==> SingleLine(lp.author.value)) &&
              (lp.description.Some? ==> lp.description.value != []) &&
              forall i :: 0 <= i < |lp.maps| ==> SongWellFormed(lp.maps[i])
  {
    var p := IntoPlaylistValue(lp, preserve, decode).value;
    if p.cover.Some? {
      ConvertedCoverIsValid(lp, preserve, decode);
    }
    forall i | 0 <= i < |lp.maps|
      ensures Beatmaps.WellFormed(p.maps[i]) <==> SongWellFormed(lp.maps[i])
    {
      IntoBeatmapValidIff(lp.maps[i], preserve);
    }
  }

  /** The playlist with every custom-data map, its own and its beatmaps', emptied. */
  function WithoutCustomData(p: Playlists.PlaylistValue): Playlists.PlaylistValue {
    p.(customData := map[],
       maps := seq(|p.maps|, i requires 0 <= i < |p.maps| => p.maps[i].(customData := map[])))
  }

  /** Converting with and without preservation differs in the custom data alone: both
      succeed or both fail, the preserving one keeps the document's maps verbatim, and the
      other is the same playlist with every custom-data map empty. */
  lemma CustomDataToggle(lp: LegacyPlaylist, decode: Base64Decoder)
    ensures IntoPlaylistValue(lp, true, decode).Ok? == IntoPlaylistValue(lp, false, decode).Ok?
    ensures IntoPlaylistValue(lp, true, decode).Ok? ==>
              var kept := IntoPlaylistValue(lp, true, decode).value;
              kept.customData == lp.customData &&
              (forall i :: 0 <= i < |kept.maps| ==> kept.maps[i].customData == lp.maps[i].customData) &&
              IntoPlaylistValue(lp, false, decode).value == WithoutCustomData(kept)
  {
  }

  /** The type inference examples: only a hash gives `Hash`, only a key gives `Key`, neither
      gives `LevelId` with no level id. */
  lemma TypeInferenceExamples(k: string, h: string, d: Option<Beatmaps.DateTime>)
    ensures IntoBeatmap(LegacyBeatmap(None, Some(h), d, map[]), false).ty == Beatmaps.Hash
    ensures IntoBeatmap(LegacyBeatmap(Some(k), None, d, map[]), false).ty == Beatmaps.Key
    ensures IntoBeatmap(LegacyBeatmap(Some(k), Some(h), d, map[]), false).ty == Beatmaps.Key
    ensures var b := IntoBeatmap(LegacyBeatmap(None, None, d, map[]), false);
            b.ty == Beatmaps.LevelId && b.levelId.None?
  {
  }
}
