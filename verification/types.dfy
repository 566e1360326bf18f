/** Interaction records and the string tags the app stores for their type. */
module Types {
  import opened Wrappers

  /** The closed set of interaction types, one per button on the main screen. */
  datatype InteractionType = FEED | PLAY | REST | CLEAN

  /** One logged interaction. `kind` is the Java `type` field; ids and the
      timestamp are opaque naturals supplied by the store and the clock. */
  datatype Interaction = Interaction(id: nat, petId: nat, kind: InteractionType, timestamp: nat)

  /** The string the app writes into the `type` column for each interaction type. */
  function Name(t: InteractionType): string
  {
    match t
    case FEED => "FEED"
    case PLAY => "PLAY"
    case REST => "REST"
    case CLEAN => "CLEAN"
  }

  /** Reads a stored `type` column back; any other string is not a valid type. */
  function Parse(s: string): (r: Option<InteractionType>)
    ensures r.Some? ==> Name(r.value) == s
    ensures r.None? ==> forall t :: Name(t) != s
  {
    if s == "FEED" then Some(FEED)
    else if s == "PLAY" then Some(PLAY)
    else if s == "REST" then Some(REST)
    else if s == "CLEAN" then Some(CLEAN)
    else None
  }

  /** Every tag the app writes reads back as the type it was written for. */
  lemma ParseName(t: InteractionType)
    ensures Parse(Name(t)) == Some(t)
  {
  }

  /** Distinct types are written as distinct tags. */
  lemma NameInjective(t: InteractionType, u: InteractionType)
    ensures Name(t) == Name(u) <==> t == u
  {
    if Name(t) == Name(u) {
      ParseName(t);
      ParseName(u);
    }
  }
}
