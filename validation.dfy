/** The structured errors the validators return (rust/src/validation.rs). Field and type
    names are the `&'static str` tags of the source; a `PathBuf` is its text. */
module Validation {

  datatype PlaylistError =
    | InvalidField(field: string, value: string)
      /** `#[from] PlaylistCoverError`: a cover error is wrapped as it is. */
    | InvalidCover(cover: PlaylistCoverError)
    | InvalidBeatmap(idx: nat, error: BeatmapError)

  datatype PlaylistCoverError =
    | UnknownCoverType
    | InvalidCoverPath(ty: string, path: string)
    | InvalidCoverData(ty: string)

  datatype BeatmapError =
    | MismatchedType(ty: string, field: string)
    | InvalidField(field: string, value: string)
    | InvalidDifficulty(idx: nat, error: BeatmapDifficultyError)

  datatype BeatmapDifficultyError =
    | InvalidField(field: string, value: string)
}
