/** `DecisionCreator`: reading a decision back from the tokens that `export` wrote. Choice
    references `C<k>` name position `k` of the list of choices the reader is given. */
module DecisionReader {
  import opened Wrappers
  import opened JavaInt
  import opened Tables
  import opened StatusUpdates
  import opened Decisions
  import opened IOUtils
  import opened Handles

  const ILLEGAL_DECISION := "Illegal format - not a valid decision"
  const ILLEGAL_DETERMINER := "Illegal format - not a valid outcome determiner"
  const ILLEGAL_CHOICE := "Illegal format - not a valid choice"

  /** `DecisionTypes`. */
  datatype DecisionType = SIMPLE | CONSEQUENTIAL | DEPENDENT

  /** `DecisionTypes.valueOf`: the exact constant names only. */
  function DecisionTypeNamed(s: string): (r: Option<DecisionType>)
    ensures r == Some(SIMPLE) <==> s == "SIMPLE"
    ensures r == Some(CONSEQUENTIAL) <==> s == "CONSEQUENTIAL"
    ensures r == Some(DEPENDENT) <==> s == "DEPENDENT"
    ensures r.None? <==> s != "SIMPLE" && s != "CONSEQUENTIAL" && s != "DEPENDENT"
  {
    if s == "SIMPLE" then Some(SIMPLE)
    else if s == "CONSEQUENTIAL" then Some(CONSEQUENTIAL)
    else if s == "DEPENDENT" then Some(DEPENDENT)
    else None
  }

  /** `getType`. */
  function GetDecisionType(ts: seq<string>): (r: Result<Parsed<DecisionType>>)
    ensures r.Success? ==> |r.value.rest| < |ts|
  {
    match QuotedToken(ts, ILLEGAL_DECISION)
    case Failure(e) => Failure(e)
    case Success(t) =>
      match DecisionTypeNamed(t.value)
      case None => Failure(IllegalArgument(ILLEGAL_DECISION))
      case Some(k) => Success(Parsed(k, t.rest))
  }

  /** `getChoice`: a token `C<k>` with `k` below the number of choices names `choices[k]`. The
      empty token fails in `charAt(0)`, and a negative `k` passes the check and fails in
      `List.get`. */
  function GetChoice(ts: seq<string>, choices: seq<ChoiceId>): (r: Result<Parsed<ChoiceId>>)
    ensures r.Success? ==> r.value.value in choices && |r.value.rest| < |ts|
  {
    match QuotedToken(ts, ILLEGAL_CHOICE)
    case Failure(e) => Failure(e)
    case Success(t) =>
      if |t.value| == 0 then Failure(StringIndexOutOfBounds)
      else if t.value[0] != 'C' then Failure(IllegalArgument(ILLEGAL_CHOICE))
      else
        match GetNumId(t.value, ILLEGAL_CHOICE)
        case Failure(e) => Failure(e)
        case Success(k) =>
          if k as int >= |choices| then Failure(IllegalArgument(ILLEGAL_CHOICE))
          else if k < 0 then Failure(IndexOutOfBounds)
          else Success(Parsed(choices[k], t.rest))
  }

  /** `importDeterminer`: `TWOTHRESHOLD`, the dependency, the threshold and two choices. */
  function ImportDeterminer(ts: seq<string>, choices: seq<ChoiceId>): (r: Result<Parsed<Determiner>>)
    ensures r.Success? ==> |r.value.rest| < |ts|
    ensures r.Success? ==> forall c :: c in DeterminerOutcomes(r.value.value) ==> c in choices
  {
    match QuotedToken(ts, ILLEGAL_DETERMINER)
    case Failure(e) => Failure(e)
    case Success(kind) =>
      if kind.value != "TWOTHRESHOLD" then Failure(IllegalArgument(ILLEGAL_DETERMINER))
      else
        match QuotedToken(kind.rest, ILLEGAL_DETERMINER)
        case Failure(e) => Failure(e)
        case Success(dependency) =>
          match NextInt(dependency.rest, ILLEGAL_DETERMINER)
          case Failure(e) => Failure(e)
          case Success(threshold) =>
            match GetChoice(threshold.rest, choices)
            case Failure(e) => Failure(e)
            case Success(below) =>
              match GetChoice(below.rest, choices)
              case Failure(e) => Failure(e)
              case Success(meets) =>
                match NewTwoThreshold(Some(dependency.value), threshold.value, Some(below.value), Some(meets.value))
                case Failure(e) => Failure(e)
                case Success(det) => Success(Parsed(det, meets.rest))
  }

  /** The `CONSEQUENTIAL` loop: while the last token read is not `]`, an update, its status
      name and a separator are read, and the update is put under the name (a repeated name
      keeps its first place and its last update). */
  function ReadEffects(next: string, ts: seq<string>, acc: Table<StatusUpdate>): (r: Result<Parsed<Table<StatusUpdate>>>)
    ensures r.Success? ==> |r.value.rest| <= |ts|
    decreases |ts|
  {
    if next == "]" then Success(Parsed(acc, ts))
    else
      match ImportSimple(ts)
      case Failure(e) => Failure(e)
      case Success(u) =>
        match QuotedToken(u.rest, ILLEGAL_DECISION)
        case Failure(e) => Failure(e)
        case Success(name) =>
          match QuotedToken(name.rest, ILLEGAL_DECISION)
          case Failure(e) => Failure(e)
          case Success(separator) => ReadEffects(separator.value, separator.rest, Put(acc, name.value, u.value))
  }

  /** The `SIMPLE` case of `importDecision`: a description and a choice. */
  function ReadSimple(ts: seq<string>, choices: seq<ChoiceId>): (r: Result<Parsed<Decision>>)
    ensures r.Success? ==> |r.value.rest| < |ts| && r.value.value.Simple?
    ensures r.Success? ==> forall c :: c in ReferencedChoices(r.value.value) ==> c in choices
  {
    match QuotedToken(ts, ILLEGAL_DECISION)
    case Failure(e) => Failure(e)
    case Success(description) =>
      match GetChoice(description.rest, choices)
      case Failure(e) => Failure(e)
      case Success(outcome) =>
        match NewSimple(Some(description.value), Some(outcome.value))
        case Failure(e) => Failure(e)
        case Success(d) => Success(Parsed(d, outcome.rest))
  }

  /** The `CONSEQUENTIAL` case: a description, an opening token that is not compared with
      anything, the effects and a choice. */
  function ReadConsequential(ts: seq<string>, choices: seq<ChoiceId>): (r: Result<Parsed<Decision>>)
    ensures r.Success? ==> |r.value.rest| < |ts| && r.value.value.Consequential?
    ensures r.Success? ==> forall c :: c in ReferencedChoices(r.value.value) ==> c in choices
  {
    match QuotedToken(ts, ILLEGAL_DECISION)
    case Failure(e) => Failure(e)
    case Success(description) =>
      match QuotedToken(description.rest, ILLEGAL_DECISION)
      case Failure(e) => Failure(e)
      case Success(opener) =>
        match ReadEffects(opener.value, opener.rest, Empty())
        case Failure(e) => Failure(e)
        case Success(effects) =>
          match GetChoice(effects.rest, choices)
          case Failure(e) => Failure(e)
          case Success(outcome) =>
            match NewConsequential(Some(description.value), Some(outcome.value), Lift(effects.value))
            case Failure(e) => Failure(e)
            case Success(d) => Success(Parsed(d, outcome.rest))
  }

  /** `importDecision`. A dependent decision reads its determiner, one opening token and its
      delegate, and leaves the delegate's closing token to its caller. Every choice the result
      refers to is one of the given choices. */
  function ImportDecision(ts: seq<string>, choices: seq<ChoiceId>): (r: Result<Parsed<Decision>>)
    ensures r.Success? ==> |r.value.rest| < |ts|
    ensures r.Success? ==> forall c :: c in ReferencedChoices(r.value.value) ==> c in choices
    decreases |ts|
  {
    match GetDecisionType(ts)
    case Failure(e) => Failure(e)
    case Success(kind) =>
      match kind.value
      case SIMPLE => ReadSimple(kind.rest, choices)
      case CONSEQUENTIAL => ReadConsequential(kind.rest, choices)
      case DEPENDENT => ReadDependent(kind.rest, choices)
  }

  /** The `DEPENDENT` case: a determiner, an opening token and the delegate. */
  function ReadDependent(ts: seq<string>, choices: seq<ChoiceId>): (r: Result<Parsed<Decision>>)
    ensures r.Success? ==> |r.value.rest| < |ts| && r.value.value.Dependent?
    ensures r.Success? ==> forall c :: c in ReferencedChoices(r.value.value) ==> c in choices
    decreases |ts|
  {
    match ImportDeterminer(ts, choices)
    case Failure(e) => Failure(e)
    case Success(determiner) =>
      match QuotedToken(determiner.rest, ILLEGAL_DECISION)
      case Failure(e) => Failure(e)
      case Success(opener) =>
        match ImportDecision(opener.rest, choices)
        case Failure(e) => Failure(e)
        case Success(delegate) =>
          match NewDependent(Some(delegate.value), Some(determiner.value))
          case Failure(e) => Failure(e)
          case Success(d) => Success(Parsed(d, delegate.rest))
  }

  /** `importDecision(sc, choices)` on the scanner: it reads what `ImportDecision` reads and
      leaves the scanner after it. */
  method ImportDecisionFrom(sc: Scanner, choices: seq<ChoiceId>) returns (r: Result<Decision>)
    modifies sc
    ensures r == Value(ImportDecision(old(sc.tokens), choices))
    ensures r.Success? ==> sc.tokens == ImportDecision(old(sc.tokens), choices).value.rest
    decreases |sc.tokens|, 1
  {
    var tag := sc.TryNext(ILLEGAL_DECISION);
    if tag.Failure? {
      return Failure(tag.error);
    }
    var kind := DecisionTypeNamed(tag.value);
    if kind.None? {
      return Failure(IllegalArgument(ILLEGAL_DECISION));
    }
    match kind.value
    case SIMPLE => r := SimpleFrom(sc, choices);
    case CONSEQUENTIAL => r := ConsequentialFrom(sc, choices);
    case DEPENDENT => r := DependentFrom(sc, choices);
  }

  /** The `SIMPLE` case on the scanner. */
  method SimpleFrom(sc: Scanner, choices: seq<ChoiceId>) returns (r: Result<Decision>)
    modifies sc
    ensures r == Value(ReadSimple(old(sc.tokens), choices))
    ensures r.Success? ==> sc.tokens == ReadSimple(old(sc.tokens), choices).value.rest
  {
    var description := sc.TryNext(ILLEGAL_DECISION);
    if description.Failure? {
      return Failure(description.error);
    }
    var outcome := GetChoice(sc.tokens, choices);
    if outcome.Failure? {
      return Failure(outcome.error);
    }
    sc.tokens := outcome.value.rest;
    r := NewSimple(Some(description.value), Some(outcome.value.value));
  }

  /** The `CONSEQUENTIAL` case on the scanner: the effects are read by a loop that puts each
      update under its name until the separator read is `]`. */
  method ConsequentialFrom(sc: Scanner, choices: seq<ChoiceId>) returns (r: Result<Decision>)
    modifies sc
    ensures r == Value(ReadConsequential(old(sc.tokens), choices))
    ensures r.Success? ==> sc.tokens == ReadConsequential(old(sc.tokens), choices).value.rest
  {
    var description := sc.TryNext(ILLEGAL_DECISION);
    if description.Failure? {
      return Failure(description.error);
    }
    var opener := sc.TryNext(ILLEGAL_DECISION);
    if opener.Failure? {
      return Failure(opener.error);
    }
    var effects := EffectsFrom(sc, opener.value);
    if effects.Failure? {
      return Failure(effects.error);
    }
    var outcome := GetChoice(sc.tokens, choices);
    if outcome.Failure? {
      return Failure(outcome.error);
    }
    sc.tokens := outcome.value.rest;
    r := NewConsequential(Some(description.value), Some(outcome.value.value), Lift(effects.value));
  }

  /** The effects loop on the scanner, from the token `next` just read. */
  method EffectsFrom(sc: Scanner, next: string) returns (r: Result<Table<StatusUpdate>>)
    modifies sc
    ensures r == Value(ReadEffects(next, old(sc.tokens), Empty()))
    ensures r.Success? ==> sc.tokens == ReadEffects(next, old(sc.tokens), Empty()).value.rest
  {
    var updates: Table<StatusUpdate> := Empty();
    var separator := next;
    ghost var total := ReadEffects(next, sc.tokens, Empty());
    while separator != "]"
      invariant ReadEffects(separator, sc.tokens, updates) == total
      decreases |sc.tokens|
    {
      var u := ImportSimple(sc.tokens);
      if u.Failure? {
        return Failure(u.error);
      }
      sc.tokens := u.value.rest;
      var name := sc.TryNext(ILLEGAL_DECISION);
      if name.Failure? {
        return Failure(name.error);
      }
      var sep := sc.TryNext(ILLEGAL_DECISION);
      if sep.Failure? {
        return Failure(sep.error);
      }
      updates := Put(updates, name.value, u.value.value);
      separator := sep.value;
    }
    return Success(updates);
  }

  /** The `DEPENDENT` case on the scanner. */
  method DependentFrom(sc: Scanner, choices: seq<ChoiceId>) returns (r: Result<Decision>)
    modifies sc
    ensures r == Value(ReadDependent(old(sc.tokens), choices))
    ensures r.Success? ==> sc.tokens == ReadDependent(old(sc.tokens), choices).value.rest
    decreases |sc.tokens|, 0
  {
    var determiner := ImportDeterminer(sc.tokens, choices);
    if determiner.Failure? {
      return Failure(determiner.error);
    }
    sc.tokens := determiner.value.rest;
    var opener := sc.TryNext(ILLEGAL_DECISION);
    if opener.Failure? {
      return Failure(opener.error);
    }
    var delegate := ImportDecisionFrom(sc, choices);
    if delegate.Failure? {
      return Failure(delegate.error);
    }
    r := NewDependent(Some(delegate.value), Some(determiner.value.value));
  }
}
