/** A playlist entry (src/beatmap.rs): a reference to a map by key, by hash or by level
    identifier, with its difficulties, and the first-error validation of it. */
module Beatmaps {
  import opened Results
  import opened Utils
  import opened Validation
  import Json

  /** `DateTime<Utc>`: an instant, ordered as time is. */
  type DateTime = int

  datatype BeatmapType = Key | Hash | LevelId

  datatype BeatmapDifficulty = BeatmapDifficulty(name: string, characteristic: string)

  datatype Beatmap = Beatmap(
    ty: BeatmapType,
    date: Option<DateTime>,
    difficulties: seq<BeatmapDifficulty>,
    key: Option<string>,
    hash: Option<string>,
    levelId: Option<string>,
    customData: Json.Map)

  /** The serialised name of a type, which is also the name of the field it requires. */
  function TypeName(ty: BeatmapType): string {
    match ty
    case Key => "key"
    case Hash => "hash"
    case LevelId => "levelID"
  }

  // ---------------------------------------------------------------------------
  // Constructors (`Utc::now()` is the parameter `now`)
  // ---------------------------------------------------------------------------

  function NewKey(key: string, now: DateTime): (r: Beatmap)
    ensures r.ty == Key && r.key == Some(key) && r.hash.None? && r.levelId.None?
    ensures r.date == Some(now) && r.difficulties == [] && r.customData == map[]
    ensures Validate(r).Ok? <==> KeyWellFormed(key)
    ensures Validate(r).Err? ==> Validate(r).error == BeatmapError.InvalidField("key", key)
  {
    Beatmap(Key, Some(now), [], Some(key), None, None, map[])
  }

  function NewHash(hash: string, now: DateTime): (r: Beatmap)
    ensures r.ty == Hash && r.key.None? && r.hash == Some(hash) && r.levelId.None?
    ensures r.date == Some(now) && r.difficulties == [] && r.customData == map[]
    ensures Validate(r).Ok? <==> HashWellFormed(hash)
    ensures Validate(r).Err? ==> Validate(r).error == BeatmapError.InvalidField("hash", hash)
  {
    Beatmap(Hash, Some(now), [], None, Some(hash), None, map[])
  }

  function NewLevelId(levelId: string, now: DateTime): (r: Beatmap)
    ensures r.ty == LevelId && r.key.None? && r.hash.None? && r.levelId == Some(levelId)
    ensures r.date == Some(now) && r.difficulties == [] && r.customData == map[]
    ensures Validate(r).Ok? <==> LevelIdWellFormed(levelId)
    ensures Validate(r).Err? ==> Validate(r).error == BeatmapError.InvalidField("levelID", levelId)
  {
    Beatmap(LevelId, Some(now), [], None, None, Some(levelId), map[])
  }

  // ---------------------------------------------------------------------------
  // What a valid entry is
  // ---------------------------------------------------------------------------

  predicate DifficultyWellFormed(d: BeatmapDifficulty) {
    SingleLine(d.name) && SingleLine(d.characteristic)
  }

  /** The identifier the declared type names is present. */
  predicate HasIdentifierForType(b: Beatmap) {
    match b.ty
    case Key => b.key.Some?
    case Hash => b.hash.Some?
    case LevelId => b.levelId.Some?
  }

  predicate KeyWellFormed(k: string) {
    |k| > 0 && HexDigits(k)
  }

  /** A SHA-1 digest in hex. */
  predicate HashWellFormed(h: string) {
    |h| == 40 && HexDigits(h)
  }

  predicate LevelIdWellFormed(l: string) {
    SingleLine(l)
  }

  /** Every identifier that is present is well formed, whatever the declared type. */
  predicate IdentifiersWellFormed(b: Beatmap) {
    (b.key.Some? ==> KeyWellFormed(b.key.value)) &&
    (b.hash.Some? ==> HashWellFormed(b.hash.value)) &&
    (b.levelId.Some? ==> LevelIdWellFormed(b.levelId.value))
  }

  predicate WellFormed(b: Beatmap) {
    HasIdentifierForType(b) &&
    (forall i :: 0 <= i < |b.difficulties| ==> DifficultyWellFormed(b.difficulties[i])) &&
    IdentifiersWellFormed(b)
  }

  // ---------------------------------------------------------------------------
  // Validation
  // ---------------------------------------------------------------------------

  /** `BeatmapDifficulty::validate`: the name is checked before the characteristic. */
  function ValidateDifficulty(d: BeatmapDifficulty): (r: Result<(), BeatmapDifficultyError>)
    ensures r.Ok? <==> DifficultyWellFormed(d)
    ensures !SingleLine(d.name) ==> r == Err(BeatmapDifficultyError.InvalidField("name", d.name))
    ensures SingleLine(d.name) && !SingleLine(d.characteristic) ==>
              r == Err(BeatmapDifficultyError.InvalidField("characteristic", d.characteristic))
  {
    if StrIsEmptyOrHasNewlines(d.name) then
      Err(BeatmapDifficultyError.InvalidField("name", d.name))
    else if StrIsEmptyOrHasNewlines(d.characteristic) then
      Err(BeatmapDifficultyError.InvalidField("characteristic", d.characteristic))
    else
      Ok(())
  }

  /** The check of the declared type against the identifiers present. */
  function CheckType(b: Beatmap): (r: Option<BeatmapError>)
    ensures r.None? <==> HasIdentifierForType(b)
    ensures r.Some? ==> r.value == MismatchedType(TypeName(b.ty), TypeName(b.ty))
  {
    match b.ty
    case Key => if b.key.None? then Some(MismatchedType("key", "key")) else None
    case Hash => if b.hash.None? then Some(MismatchedType("hash", "hash")) else None
    case LevelId => if b.levelId.None? then Some(MismatchedType("levelID", "levelID")) else None
  }

  /** `Beatmap::validate`: type consistency, then the difficulties in order, then the
      format of every identifier present (key, hash, level id), stopping at the first
      failure. */
  function Validate(b: Beatmap): (r: Result<(), BeatmapError>)
    ensures r.Ok? <==> WellFormed(b)
  {
    match CheckType(b)
    case Some(e) => Err(e)
    case None =>
      match FirstErr(b.difficulties, ValidateDifficulty, 0)
      case Some((idx, error)) => Err(InvalidDifficulty(idx, error))
      case None =>
        if b.key.Some? && (b.key.value == [] || !StrIsHex(b.key.value)) then
          Err(BeatmapError.InvalidField("key", b.key.value))
        else if b.hash.Some? && (|b.hash.value| != 40 || !StrIsHex(b.hash.value)) then
          Err(BeatmapError.InvalidField("hash", b.hash.value))
        else if b.levelId.Some? && StrIsEmptyOrHasNewlines(b.levelId.value) then
          Err(BeatmapError.InvalidField("levelID", b.levelId.value))
        else
          Ok(())
  }

  /** A missing identifier for the declared type is reported before anything else. */
  lemma ValidateReportsMismatchedTypeFirst(b: Beatmap)
    requires !HasIdentifierForType(b)
    ensures Validate(b) == Err(MismatchedType(TypeName(b.ty), TypeName(b.ty)))
  {
  }

  /** Otherwise the first ill-formed difficulty is reported, with its index and its own error. */
  lemma ValidateReportsFirstBadDifficulty(b: Beatmap, i: nat)
    requires HasIdentifierForType(b)
    requires i < |b.difficulties| && !DifficultyWellFormed(b.difficulties[i])
    requires forall j :: 0 <= j < i ==> DifficultyWellFormed(b.difficulties[j])
    ensures Validate(b) == Err(InvalidDifficulty(i, ValidateDifficulty(b.difficulties[i]).error))
  {
  }

  /** Only then are the identifiers format-checked, key before hash before level id, and
      each of them whatever the declared type. */
  lemma ValidateReportsIdentifierInOrder(b: Beatmap)
    requires HasIdentifierForType(b)
    requires forall j :: 0 <= j < |b.difficulties| ==> DifficultyWellFormed(b.difficulties[j])
    ensures b.key.Some? && !KeyWellFormed(b.key.value) ==>
              Validate(b) == Err(BeatmapError.InvalidField("key", b.key.value))
    ensures (b.key.Some? ==> KeyWellFormed(b.key.value)) &&
            b.hash.Some? && !HashWellFormed(b.hash.value) ==>
              Validate(b) == Err(BeatmapError.InvalidField("hash", b.hash.value))
    ensures (b.key.Some? ==> KeyWellFormed(b.key.value)) &&
            (b.hash.Some? ==> HashWellFormed(b.hash.value)) &&
            b.levelId.Some? && !LevelIdWellFormed(b.levelId.value) ==>
              Validate(b) == Err(BeatmapError.InvalidField("levelID", b.levelId.value))
  {
  }

  /** The hash examples of the format: a 40-digit hex string passes, a short one and one
      with a non-hex character fail. */
  lemma HashExamples()
    ensures HashWellFormed("0123456789abcdef0123456789abcdef01234567")
    ensures !HashWellFormed("deadbeef")
    ensures !HashWellFormed("zz23456789abcdef0123456789abcdef01234567")
  {
    assert "zz23456789abcdef0123456789abcdef01234567"[0] == 'z';
  }

  // ---------------------------------------------------------------------------
  // Ordering (`Ord for Beatmap`): by date alone, an absent date first
  // ---------------------------------------------------------------------------

  datatype Ordering = Less | Equal | Greater

  function Reverse(o: Ordering): Ordering {
    match o
    case Less => Greater
    case Equal => Equal
    case Greater => Less
  }

  /** `Option<DateTime>::cmp`: `None` sorts before every `Some`. */
  function CompareDates(x: Option<DateTime>, y: Option<DateTime>): (r: Ordering)
    ensures r == Equal <==> x == y
    ensures x.None? && y.Some? ==> r == Less
    ensures x.Some? && y.None? ==> r == Greater
    ensures x.Some? && y.Some? ==> (r == Less <==> x.value < y.value)
  {
    match (x, y)
    case (None, None) => Equal
    case (None, Some(_)) => Less
    case (Some(_), None) => Greater
    case (Some(s), Some(t)) => if s < t then Less else if s == t then Equal else Greater
  }

  function Cmp(a: Beatmap, b: Beatmap): (r: Ordering)
    ensures r == Equal <==> a.date == b.date
    ensures a.date.None? && b.date.Some? ==> r == Less
    ensures a.date.Some? && b.date.None? ==> r == Greater
    ensures a.date.Some? && b.date.Some? ==> (r == Less <==> a.date.value < b.date.value)
  {
    CompareDates(a.date, b.date)
  }

  /** Swapping the arguments reverses the answer. */
  lemma CmpAntisymmetric(a: Beatmap, b: Beatmap)
    ensures Cmp(b, a) == Reverse(Cmp(a, b))
  {
  }

  /** The order is transitive, so it is a total preorder on beatmaps. */
  lemma CmpTransitive(a: Beatmap, b: Beatmap, c: Beatmap)
    requires Cmp(a, b) != Greater && Cmp(b, c) != Greater
    ensures Cmp(a, c) != Greater
    ensures Cmp(a, b) == Less || Cmp(b, c) == Less ==> Cmp(a, c) == Less
  {
  }

  /** It is not consistent with equality: two different entries added at the same instant
      compare `Equal`. */
  lemma DistinctBeatmapsCompareEqual(now: DateTime)
    ensures NewKey("ab", now) != NewHash("ab", now)
    ensures Cmp(NewKey("ab", now), NewHash("ab", now)) == Equal
  {
  }
}
