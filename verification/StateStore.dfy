/** The validator's saved state: what is written, and what a later load accepts. */
module StateStore {
  import opened Common

  datatype ValidatorState = ValidatorState(
    burnEpoch: Option<u64>,
    digest: Option<string>,
    epoch: Option<u64>,
    id: Option<string>)

  const DEFAULT := ValidatorState(None, None, None, None)

  /** A field's JSON value; `Other` is any value of another type. */
  datatype Json = Null | Text(text: string) | Number(number: int) | Other

  /** The state file: absent, not readable, not JSON, the wrong keys, or the four fields. */
  datatype StateFile =
    | Missing
    | Unreadable
    | NotJson
    | WrongKeys
    | Fields(burnEpoch: Json, digest: Json, epoch: Json, id: Json)

  datatype StateError =
    | Read | Malformed | InvalidFields | IncompleteSummary
    | InvalidId | InvalidDigest | InvalidEpoch | InvalidBurnEpoch | InconsistentBurnEpoch

  function LoadText(value: Json, error: StateError): Result<Option<string>, StateError> {
    match value
    case Null => Ok(None)
    case Text(text) => if text == "" then Err(error) else Ok(Some(text))
    case _ => Err(error)
  }

  function LoadBlock(value: Json, error: StateError): Result<Option<u64>, StateError> {
    match value
    case Null => Ok(None)
    case Number(n) => if 0 <= n <= U64_MAX then Ok(Some(n)) else Err(error)
    case _ => Err(error)
  }

  function LoadFields(file: StateFile): Result<ValidatorState, StateError>
    requires file.Fields?
  {
    if file.id.Null? != file.digest.Null? || file.id.Null? != file.epoch.Null? then Err(IncompleteSummary)
    else
      match LoadText(file.id, InvalidId)
      case Err(e) => Err(e)
      case Ok(id) =>
        match LoadText(file.digest, InvalidDigest)
        case Err(e) => Err(e)
        case Ok(digest) =>
          match LoadBlock(file.epoch, InvalidEpoch)
          case Err(e) => Err(e)
          case Ok(epoch) =>
            match LoadBlock(file.burnEpoch, InvalidBurnEpoch)
            case Err(e) => Err(e)
            case Ok(burn) =>
              if burn.Some? && (epoch.None? || burn.value > epoch.value) then Err(InconsistentBurnEpoch)
              else Ok(ValidatorState(burn, digest, epoch, id))
  }

  function Load(file: StateFile): Result<ValidatorState, StateError> {
    match file
    case Missing => Ok(DEFAULT)
    case Unreadable => Err(Read)
    case NotJson => Err(Malformed)
    case WrongKeys => Err(InvalidFields)
    case Fields(_, _, _, _) => LoadFields(file)
  }

  function TextJson(value: Option<string>): Json {
    if value.Some? then Text(value.value) else Null
  }

  function BlockJson(value: Option<u64>): Json {
    if value.Some? then Number(value.value) else Null
  }

  /** What `save` writes. */
  function Encode(s: ValidatorState): StateFile {
    Fields(BlockJson(s.burnEpoch), TextJson(s.digest), BlockJson(s.epoch), TextJson(s.id))
  }

  /** A summary is saved whole or not at all, and its burn never runs ahead of it. */
  predicate Acceptable(s: ValidatorState) {
    && (s.id.Some? <==> s.epoch.Some?) && (s.digest.Some? <==> s.epoch.Some?)
    && (s.id.Some? ==> s.id.value != "") && (s.digest.Some? ==> s.digest.value != "")
    && (s.burnEpoch.Some? ==> s.epoch.Some? && s.burnEpoch.value <= s.epoch.value)
  }

  /** Saved states read back exactly when they are acceptable, and nothing else is ever read. */
  lemma LoadAcceptsExactly(s: ValidatorState, file: StateFile)
    ensures Load(Encode(s)) == Ok(s) <==> Acceptable(s)
    ensures Load(Encode(s)).Ok? ==> Load(Encode(s)) == Ok(s)
    ensures Load(file).Ok? ==> Acceptable(Load(file).value)
  {}

  /** A file loads as a state exactly when it is that state saved, or missing where nothing was saved yet. */
  lemma LoadsExactly(file: StateFile, s: ValidatorState)
    ensures Load(file) == Ok(s) <==> (file == Encode(s) && Acceptable(s)) || (file.Missing? && s == DEFAULT)
  {}

  predicate BadText(value: Json) {
    value.Other? || value.Number? || value == Text("")
  }

  predicate BadBlock(value: Json) {
    value.Other? || value.Text? || (value.Number? && !(0 <= value.number <= U64_MAX))
  }

  /** The summary's three fields are there together, or not at all. */
  predicate Whole(file: StateFile) {
    file.Fields? && file.id.Null? == file.digest.Null? == file.epoch.Null?
  }

  /** Why a file does not load: its kind, then the summary's fields together, each field, and the burn. */
  lemma LoadRefusal(file: StateFile)
    ensures Load(file) == Err(Read) <==> file.Unreadable?
    ensures Load(file) == Err(Malformed) <==> file.NotJson?
    ensures Load(file) == Err(InvalidFields) <==> file.WrongKeys?
    ensures Load(file) == Err(IncompleteSummary) <==>
            file.Fields? && (file.id.Null? != file.digest.Null? || file.id.Null? != file.epoch.Null?)
    ensures Load(file) == Err(InvalidId) <==> Whole(file) && BadText(file.id)
    ensures Load(file) == Err(InvalidDigest) <==> Whole(file) && !BadText(file.id) && BadText(file.digest)
    ensures Load(file) == Err(InvalidEpoch) <==>
            Whole(file) && !BadText(file.id) && !BadText(file.digest) && BadBlock(file.epoch)
    ensures Load(file) == Err(InvalidBurnEpoch) <==>
            && Whole(file) && !BadText(file.id) && !BadText(file.digest)
            && !BadBlock(file.epoch) && BadBlock(file.burnEpoch)
    ensures Load(file) == Err(InconsistentBurnEpoch) <==>
            && Whole(file) && !BadText(file.id) && !BadText(file.digest)
            && !BadBlock(file.epoch) && !BadBlock(file.burnEpoch)
            && file.burnEpoch.Number? && (file.epoch.Null? || file.burnEpoch.number > file.epoch.number)
  {}
}
