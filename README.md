# blist playlist format — a Dafny model

This project models the core of `blist`, a playlist package format: a zip archive holding a
`playlist.json` manifest (title, optional author and description, an ordered list of beatmaps,
custom data) and at most one cover image. The model covers

- the two character-wise string predicates every field check is built on (`src/utils.rs`);
- the error types the validators return (`rust/src/validation.rs`);
- beatmaps and their difficulties: constructors, first-error validation, the date order
  (`src/beatmap.rs`);
- the playlist: first-error validation, cover validation by type, path extension and byte
  signature, the cover setters, and writing to and reading from an archive
  (`src/playlist.rs`);
- the converter from the legacy playlist document: type inference for songs, the
  custom-data switch and cover sniffing by magic number (`converter/src/legacy.rs`).

Files, one module each: `results.dfy` (`Option`, `Result`, and `FirstErr`, the "first
element that fails" loop both validators run), `utils.dfy`, `json.dfy` (the opaque
custom-data value), `validation.dfy`, `beatmap.dfy`, `playlist.dfy`, `legacy.dfy`.

Form. Validation, the beatmap constructors and `into_beatmap` are functions over datatypes.
`Playlist` is a class, because `set_png_cover` and `set_jpg_cover` update it in place; its
`Value()` is the `PlaylistValue` that `Clone` copies and `Eq` compares. `Write`, `Read` and
`Legacy.IntoPlaylist` are methods that work step by step as the source does. Each is proved
equal to a specification function (`WriteArchive`, `ReadArchive`, `IntoPlaylistValue`), and
the lemmas are stated about those functions.

The archive is `map<string, seq<u8>>`. The manifest is the playlist with the cover reduced to
its path, since a cover's `data` and `ty` are not serialised. serde_json enters as a
`JsonCodec` parameter, a pair `encode`/`decode`. The round trip assumes only `Lossless`:
decoding what was encoded gives the manifest back.

`src/playlist.rs:4` imports `path_is_invalid` and the magic-number constants from `utils`, and
the `src/utils.rs` modelled here does not define them. The constants are taken from
`converter/src/legacy.rs:7-12`, which defines the same four. A path is
taken to be invalid unless it is one plain file name (non-empty, not `.` or `..`, no `/` or
`\`) that has an extension. Extensions follow Rust's `Path::extension`: the text after
the last dot, provided that dot is not the first character, so `.png` has none.

Two behaviours of the code worth knowing. `str_is_hex("")` is true (src/utils.rs:7-9), so
the key check rejects an empty key itself (src/beatmap.rs:96; `Utils.EmptyStringIsHex`). When
reading, a cover path that is invalid or has an extension other than `png`, `jpg` or `jpeg`
leaves the cover `Unknown` (src/playlist.rs:48-61), so the read fails later, in validation;
once title, author and description pass, the error is `UnknownCoverType`
(`Playlists.ReadRejectsUnrecognisedCover`). Reading looks entries up by name only, so an
archive may hold further entries (`Playlists.ReadAcceptsValidArchive`).

## Model

| member | source | states |
|---|---|---|
| `Results.FirstErr` | src/beatmap.rs:89-93 | no result exactly when every element passes; otherwise the index and error of the first element that fails, with every earlier element passing |
| `Utils.Any` | src/utils.rs:3 | `chars().any(p)` holds exactly when some character satisfies `p` |
| `Utils.StrIsEmptyOrHasNewlines` | src/utils.rs:2-4 | true exactly when the string is empty or some character is `\n` or `\r` |
| `Utils.StrIsHex` | src/utils.rs:7-9 | true exactly when every character is `0-9`, `a-f` or `A-F` |
| `Utils.AnyConcat` | src/utils.rs:3 | `any` over `s + t` is `any` over `s` or over `t` |
| `Utils.StrIsHexConcat` | src/utils.rs:8 | `str_is_hex(s + t) == str_is_hex(s) && str_is_hex(t)` |
| `Utils.StrIsEmptyOrHasNewlinesConcat` | src/utils.rs:3 | for non-empty parts, the newline test on `s + t` is the test on `s` or on `t` |
| `Utils.OnlyLineFeedAndCarriageReturnAreNewlines` | src/utils.rs:3 | a tab or NUL does not make a string fail; `\n`, `\r` and emptiness do |
| `Utils.EmptyStringIsHex` | src/utils.rs:7-9 | the empty string passes the hex test, both letter cases pass, `x` fails |
| `Utils.Extension` | src/playlist.rs:50 | an extension is the dot-free suffix after a dot that is not the first character; none exactly when there is no such dot or the name is `..` |
| `Utils.ValidPathHasExtension` | src/playlist.rs:49-50 | a path that is not invalid has an extension and no separator, so the `unwrap()` calls cannot panic |
| `Utils.CoverFileNames` | src/playlist.rs:84-100 | `cover.png` and `cover.jpg` are valid with extensions `png` and `jpg`; `subdirectory/cover.jpg`, `.png` and `cover` are invalid |
| `Utils.SignaturesDisjoint` | converter/src/legacy.rs:7-12 | no byte string starts with both the PNG and the JPEG signature |
| `Beatmaps.NewKey` | src/beatmap.rs:27-37 | type `Key`, only `key` set, the given date, no difficulties or custom data; valid exactly when the key is non-empty hex, otherwise a `key` field error |
| `Beatmaps.NewHash` | src/beatmap.rs:38-48 | type `Hash`, only `hash` set; valid exactly when the hash is 40 hex characters, otherwise a `hash` field error |
| `Beatmaps.NewLevelId` | src/beatmap.rs:49-59 | type `LevelId`, only `level_id` set; valid exactly when it is non-empty and single-line, otherwise a `levelID` field error |
| `Beatmaps.ValidateDifficulty` | src/beatmap.rs:154-168 | Ok exactly when name and characteristic are non-empty and single-line; a bad name is reported before a bad characteristic |
| `Beatmaps.CheckType` | src/beatmap.rs:62-87 | no error exactly when the identifier the type names is present; otherwise `MismatchedType` with the type's name as both type and field |
| `Beatmaps.Validate` | src/beatmap.rs:61-121 | Ok exactly when the type's identifier is present, every difficulty is valid, and every present key, hash and level id is well formed |
| `Beatmaps.ValidateReportsMismatchedTypeFirst` | src/beatmap.rs:62-87 | a missing identifier for the type is reported before any other error |
| `Beatmaps.ValidateReportsFirstBadDifficulty` | src/beatmap.rs:89-93 | next, the first invalid difficulty is reported with its index and its own error |
| `Beatmaps.ValidateReportsIdentifierInOrder` | src/beatmap.rs:95-118 | then key, hash and level id formats are checked in that order, whatever the type, each error carrying the offending value |
| `Beatmaps.HashExamples` | src/beatmap.rs:103-110 | a 40-digit hex hash passes; `deadbeef` and a hash with `zz` fail |
| `Beatmaps.CompareDates` | src/beatmap.rs:130-135 | Equal exactly when both dates are equal, an absent date counting as one value; an absent date sorts first; two present dates compare chronologically |
| `Beatmaps.Cmp` | src/beatmap.rs:124-135 | compares dates only: Equal exactly when the dates are equal; an absent date sorts before a present one; an earlier present date sorts before a later one |
| `Beatmaps.CmpAntisymmetric` | src/beatmap.rs:130-135 | swapping the arguments reverses the ordering |
| `Beatmaps.CmpTransitive` | src/beatmap.rs:130-135 | the ordering is transitive, strictly so when either step is strict |
| `Beatmaps.DistinctBeatmapsCompareEqual` | src/beatmap.rs:124-135 | two different beatmaps with the same date compare Equal |
| `Playlists.ValidateCover` | src/playlist.rs:165-210 | Ok exactly when the type is known, the path is valid with an extension of that type and the data starts with its signature; `Unknown` gives `UnknownCoverType`; a path error comes before a data error |
| `Playlists.Validate` | src/playlist.rs:116-151 | Ok exactly when the title is single-line, a present author is single-line, a present description is non-empty, a present cover is valid and every map is valid |
| `Playlists.ValidateReportsFieldsInOrder` | src/playlist.rs:116-142 | errors are reported in the order title, author, description, cover; a cover error is wrapped unchanged in `InvalidCover` |
| `Playlists.ValidateReportsFirstBadMap` | src/playlist.rs:144-148 | after those, the first invalid map is reported as `InvalidBeatmap` with its index and its own error |
| `Playlists.CoverExamples` | src/playlist.rs:165-210 | PNG bytes under `cover.png` pass as PNG; they fail as JPEG on the path, and fail when cut to 7 bytes; a nested path fails |
| `Playlists.SetterCoversValidIff` | src/playlist.rs:83-114 | the covers the setters build are valid exactly when the bytes start with the signature of their type |
| `Playlists.ToManifest` | src/playlist.rs:154-162 | the manifest keeps title, author, description, maps and custom data, and names the cover by its path exactly when the playlist has one |
| `Playlists.ToManifestForgetsOnlyCoverContents` | src/playlist.rs:154-162 | two playlists serialise to the same manifest exactly when they differ at most in their cover's `data` and `ty` |
| `Playlists.FromManifest` | src/playlist.rs:43-46 | a deserialised cover has no bytes and type `Unknown`, and stripping it again gives back the manifest |
| `Playlists.ValidCoverIsNotManifest` | src/playlist.rs:71-76 | a valid cover's path is never `playlist.json` |
| `Playlists.WriteArchive` | src/playlist.rs:66-81 | fails exactly on an invalid playlist, with its validation error; otherwise the archive holds only `playlist.json` with the encoded manifest, plus the cover's bytes under its path |
| `Playlists.LoadCover` | src/playlist.rs:48-61 | fails, with a zip error naming the path, exactly when the path is valid, its extension is `png`, `jpg` or `jpeg`, and the archive has no such entry; a known type comes only with a matching valid path and that entry's bytes; any other path leaves the cover empty and `Unknown` |
| `Playlists.ReadArchive` | src/playlist.rs:40-65 | a missing manifest is a zip error and an undecodable one a JSON error; a missing cover entry for a recognised path is a zip error naming it; otherwise the loaded playlist is returned when it is valid and its first validation error otherwise; every playlist it returns is valid, decodes from the manifest entry, and holds the cover entry's bytes |
| `Playlists.ReadAcceptsValidArchive` | src/playlist.rs:40-65 | any archive, whatever other entries it holds, whose manifest decodes to a valid playlist's manifest and whose cover entry holds that playlist's cover bytes reads back as that playlist |
| `Playlists.ReadRejectsUnrecognisedCover` | src/playlist.rs:48-63 | once title, author and description pass, a cover path that is invalid or has another extension makes the read fail with `UnknownCoverType` |
| `Playlists.ReadWriteRoundTrip` | src/playlist.rs:40-81 | for a valid playlist and a lossless codec, write succeeds and reading its archive gives back the same playlist |
| `Playlists.Playlist.constructor` | converter/src/legacy.rs:42-56 | a playlist built field by field holds exactly those fields |
| `Playlists.Playlist.New` | src/playlist.rs:29-38 | only the title is set; the playlist is valid exactly when the title is single-line |
| `Playlists.Playlist.SetPngCover` | src/playlist.rs:83-98 | the cover becomes `cover.png`, PNG, with the given bytes, and nothing else changes; it is valid exactly when the bytes carry the PNG signature |
| `Playlists.Playlist.SetJpgCover` | src/playlist.rs:99-114 | the same with `cover.jpg`, JPEG and the JPEG signature |
| `Playlists.Playlist.Write` | src/playlist.rs:66-81 | produces exactly the archive `WriteArchive` describes |
| `Playlists.Playlist.Read` | src/playlist.rs:40-65 | returns a fresh playlist whose value is what `ReadArchive` describes, or the same error |
| `Legacy.InferType` | converter/src/legacy.rs:99-105 | `Key` exactly when a key is present, `Hash` exactly when only a hash is, `LevelId` when neither is |
| `Legacy.IntoBeatmap` | converter/src/legacy.rs:91-120 | copies key, hash and date, sets no level id and no difficulties, and applies the custom-data switch; the type's identifier is present exactly when the song has a key or a hash |
| `Legacy.IntoBeatmapValidIff` | converter/src/legacy.rs:107-120 | a converted song is valid exactly when it has a key or a hash and each one present is well formed |
| `Legacy.SongWithoutIdentifierIsRejected` | converter/src/legacy.rs:99-113 | a song with neither key nor hash becomes `LevelId` without a level id and fails with `MismatchedType` for `levelID` |
| `Legacy.SniffCoverType` | converter/src/legacy.rs:59-73 | PNG exactly when the bytes start with the PNG signature, JPEG exactly when they start with the JPEG one |
| `Legacy.IntoPlaylistValue` | converter/src/legacy.rs:32-76 | fails only on an image that is not base64; title, author and description are copied; maps are converted one for one, in order; the image becomes a PNG or JPEG cover by its signature, or no cover |
| `Legacy.IntoPlaylist` | converter/src/legacy.rs:32-76 | returns a fresh playlist whose value is what `IntoPlaylistValue` describes, or the same error |
| `Legacy.ConvertedCoverIsValid` | converter/src/legacy.rs:57-74 | any cover the conversion attaches passes cover validation |
| `Legacy.ConvertedPlaylistValidIff` | converter/src/legacy.rs:32-76 | a converted playlist is valid exactly when title, author and description are, and every song has a well-formed key or hash |
| `Legacy.CustomDataToggle` | converter/src/legacy.rs:114-118 | with and without preservation both succeed or both fail; one keeps the custom data verbatim, and the other is the same playlist with every custom-data map emptied |
| `Legacy.TypeInferenceExamples` | converter/src/legacy.rs:99-105 | only a hash gives `Hash`, only a key or both give `Key`, neither gives `LevelId` without a level id |

## Left out

- `converter/src/main.rs` is not part of this model: command-line parsing, file globbing, parallel conversion, file creation and deletion, and timing.
- The zip container's byte layout and serde_json's text are foreign libraries. The archive is a map from entry name to bytes. The JSON layer is the `JsonCodec` parameter, and the round trip assumes only that it is lossless.
- `Playlists.ReadArchive`: corrupt zip containers and I/O failures are not modelled. The only failures are a missing entry (`ZipError`), a manifest that does not decode (`JsonError`) and validation (`ValidationError`). `Error::IO` has no counterpart.
- `Playlists.Playlist.SetPngCover`, `Playlists.Playlist.SetJpgCover`: the reader is the bytes it would yield, so a failing `read_to_end` and the `Err` it would return are not modelled.
- `Playlists.Playlist.SetPngCover`, `Playlists.Playlist.SetJpgCover`, `Playlists.Playlist.Read`: the source updates the fields of an existing cover in place. The model replaces the cover value, which is the same thing because the playlist owns its cover and nothing else can alias it.
- `base64::decode` is a foreign call. It is the `Base64Decoder` parameter, a partial function from text to bytes.
- `constant_time_eq`: its timing behaviour is not expressible. Signature checks are plain equality of the byte prefix.
- `Utc::now()` in the beatmap constructors is a clock read. It is the parameter `now`, and `DateTime` is an integer instant.
- Custom data (`serde_json::Value`) is an opaque value compared only for equality. Its numbers are integers here.
- `Utils.Extension` models `Path::extension` only for one-segment paths. Every use is guarded by the path-validity check, which rejects other paths.
- `path_is_invalid` is imported from `utils` (src/playlist.rs:4) but the `src/utils.rs` modelled here does not define it. Its definition here is the concrete choice described above.
- `Legacy.IntoBeatmap`: `into_beatmap` returns a `Result` that is always `Ok`. It is modelled as a total function.
- Hash length: `h.len()` counts bytes and the model counts characters. The two agree on every string that passes the hex test, so validation is unaffected.
- The data-URI form of a legacy image has no code in the source, so it is not modelled.
- `thiserror` message strings and `src/lib.rs` are not behaviour. `src/validation.rs` is an older copy of `rust/src/validation.rs` without `InvalidCover`, and the model uses the newer one.
