/** Values shared by every module: outcomes, scores, board rows and the
    versions' placement rows. */
module Core {

  datatype Option<+T> = None | Some(value: T) {
    function GetOr(default: T): T {
      match this
      case Some(v) => v
      case None => default
    }
  }

  /** The service's error kinds; the message text is not modelled. */
  datatype Error = Validation | NotFound | Conflict | Database | Internal | ServiceUnavailable

  datatype Result<+T> = Success(value: T) | Failure(error: Error) {
    predicate IsFailure() {
      Failure?
    }

    function PropagateFailure<U>(): Result<U>
      requires Failure?
    {
      Failure(error)
    }

    function Extract(): T
      requires Success?
    {
      value
    }
  }

  type Slug = string
  type EntryId = nat
  type VersionId = nat

  /** A JSON document. Only its equality matters here. */
  datatype Json = Json(text: string)

  // ---------------------------------------------------------------- scores

  /** A 64-bit float is its bit pattern. */
  type Float64 = bits: nat | bits < 0x1_0000_0000_0000_0000

  const SIGN_BIT: nat := 0x8000_0000_0000_0000
  const INFINITY_BITS: nat := 0x7FF0_0000_0000_0000

  function Magnitude(f: Float64): nat {
    if f < SIGN_BIT then f else f - SIGN_BIT
  }

  /** Neither infinite nor NaN. */
  predicate IsFinite(f: Float64) {
    Magnitude(f) < INFINITY_BITS
  }

  /** Floats compare as these integers do: sign and magnitude, so that both
      zeros have key 0. NaN is above everything, as in PostgreSQL. */
  function OrderKey(f: Float64): int {
    var m: int := Magnitude(f);
    if m > INFINITY_BITS then INFINITY_BITS + 1
    else if f < SIGN_BIT then m
    else -m
  }

  /** Equality of optional scores is equality of bit patterns. */
  predicate ScoresEqual(a: Option<Float64>, b: Option<Float64>) {
    match (a, b)
    case (None, None) => true
    case (Some(x), Some(y)) => x == y
    case _ => false
  }

  // ---------------------------------------------------------------- boards

  datatype BoardType = Ordered | Scored | Tiered | OtherType(text: string)

  /** Anything that is not "asc" ranks in descending order. */
  datatype Direction = Asc | Desc | OtherDirection(text: string)

  datatype Tier = Tier(key: string, position: int, tierLabel: Option<string>)

  datatype TierConfig = TierConfig(tiers: seq<Tier>)

  datatype Board = Board(
    slug: Slug,
    name: string,
    boardType: BoardType,
    sortDirection: Direction,
    tierConfig: Option<TierConfig>,
    metadata: Option<Json>,
    accumulative: bool,
    realtime: bool,
    clearOnSnapshot: bool)

  /** A row of the placements table: UNIQUE (version_id, entry_id). */
  datatype Placement = Placement(
    versionId: VersionId,
    entryId: EntryId,
    position: Option<int>,
    score: Option<Float64>,
    tier: Option<string>,
    metadata: Option<Json>)

  /** An entry of the board; its slug is the key it is stored under. */
  datatype EntryRow = EntryRow(id: EntryId, name: string, metadata: Option<Json>)

  // ------------------------------------------------------------ validation

  predicate IsSlugChar(c: char) {
    'a' <= c <= 'z' || '0' <= c <= '9' || c == '-'
  }

  /** 1-128 lower-case letters, digits and hyphens, no hyphen at either end. */
  predicate ValidSlug(slug: Slug) {
    && 1 <= |slug| <= 128
    && (forall i | 0 <= i < |slug| :: IsSlugChar(slug[i]))
    && slug[0] != '-'
    && slug[|slug| - 1] != '-'
  }

  predicate ValidName(name: string) {
    1 <= |name| <= 256
  }

  /** By character code: a to z, 0 to 9 and the hyphen. */
  ghost predicate IsSlug(slug: string) {
    && 0 < |slug| < 129
    && (forall i | 0 <= i < |slug| ::
          var c := slug[i] as int; 97 <= c <= 122 || 48 <= c <= 57 || c == 45)
    && slug[0] as int != 45 && slug[|slug| - 1] as int != 45
  }

  lemma ValidSlugIs(slug: string)
    ensures ValidSlug(slug) <==> IsSlug(slug)
    ensures ValidName(slug) <==> 0 < |slug| < 257
  {
    forall i | 0 <= i < |slug|
      ensures IsSlugChar(slug[i])
              <==> var c := slug[i] as int; 97 <= c <= 122 || 48 <= c <= 57 || c == 45
    {
    }
  }
}
