/**
 * The evaluation variants A-J: for each, the compile definitions that select
 * its security features and the vsomeip branch it is built from.
 */
module Variants {
  import opened Wrappers
  import opened Strings

  datatype Variant = A | B | C | D | E | F | G | H | I | J

  datatype Definition =
    | ServiceAuthentication
    | ClientAuthentication
    | Encryption
    | SomeipSd
    | Dane

  const VANILLA := "multiple_services/vanilla"
  const DNS_AND_DANE := "multiple_services/dns_and_dane"

  /** The compile definition's name as the build sees it. */
  function DefinitionName(d: Definition): string
  {
    match d
    case ServiceAuthentication => "WITH_SERVICE_AUTHENTICATION"
    case ClientAuthentication => "WITH_CLIENT_AUTHENTICATION"
    case Encryption => "WITH_ENCRYPTION"
    case SomeipSd => "WITH_SOMEIP_SD"
    case Dane => "WITH_DANE"
  }

  function Letter(v: Variant): string
  {
    match v
    case A => "A" case B => "B" case C => "C" case D => "D" case E => "E"
    case F => "F" case G => "G" case H => "H" case I => "I" case J => "J"
  }

  /** The `--evaluate` choices: exactly the ten letters name a variant. */
  function ParseVariant(token: string): (r: Option<Variant>)
    ensures r.Some? ==> Letter(r.value) == token
    ensures r.None? ==> forall v: Variant :: Letter(v) != token
  {
    if token == "A" then Some(A) else if token == "B" then Some(B)
    else if token == "C" then Some(C) else if token == "D" then Some(D)
    else if token == "E" then Some(E) else if token == "F" then Some(F)
    else if token == "G" then Some(G) else if token == "H" then Some(H)
    else if token == "I" then Some(I) else if token == "J" then Some(J)
    else None
  }

  lemma ParseLetter(v: Variant)
    ensures ParseVariant(Letter(v)) == Some(v)
  {
  }

  /** The vsomeip branch a variant is built from: A-D vanilla, E-J with DNS and DANE. */
  function Branch(v: Variant): (b: string)
    ensures b == VANILLA <==> v in {A, B, C, D}
    ensures b == DNS_AND_DANE <==> v in {E, F, G, H, I, J}
  {
    match v
    case A | B | C | D => VANILLA
    case E | F | G | H | I | J => DNS_AND_DANE
  }

  /**
   * The compile definitions of a variant, in the order the catalog lists them.
   * Each flag is characterised by the variants that carry it.
   */
  function Definitions(v: Variant): (ds: seq<Definition>)
    ensures ds == [] <==> v in {A, E}
    ensures ServiceAuthentication in ds <==> v in {B, C, D}
    ensures ClientAuthentication in ds <==> v in {C, D, I, J}
    ensures Encryption in ds <==> v in {D, J}
    ensures SomeipSd in ds <==> v in {F, H, I, J}
    ensures Dane in ds <==> v in {G, H, I, J}
    ensures Encryption in ds ==> ClientAuthentication in ds
    ensures forall i, j :: 0 <= i < j < |ds| ==> ds[i] != ds[j]
  {
    match v
    case A => []
    case B => [ServiceAuthentication]
    case C => [ServiceAuthentication, ClientAuthentication]
    case D => [ServiceAuthentication, ClientAuthentication, Encryption]
    case E => []
    case F => [SomeipSd]
    case G => [Dane]
    case H => [Dane, SomeipSd]
    case I => [Dane, SomeipSd, ClientAuthentication]
    case J => [Dane, SomeipSd, ClientAuthentication, Encryption]
  }

  function Names(ds: seq<Definition>): (ns: seq<string>)
    ensures |ns| == |ds| && forall i :: 0 <= i < |ds| ==> ns[i] == DefinitionName(ds[i])
  {
    if ds == [] then [] else [DefinitionName(ds[0])] + Names(ds[1..])
  }

  /** The catalog's text value: the definition names separated by single spaces. */
  function DefinitionsText(v: Variant): string
  {
    Join(Names(Definitions(v)), ' ')
  }

  lemma NameIsWord(d: Definition)
    ensures DefinitionName(d) != "" && NoBlank(DefinitionName(d))
  {
    var n := DefinitionName(d);
    assert ' ' !in n && '\t' !in n by {
      match d
      case ServiceAuthentication =>
      case ClientAuthentication =>
      case Encryption =>
      case SomeipSd =>
      case Dane =>
    }
  }

  /** Splitting a catalog value into words gives back the definition names. */
  lemma DefinitionsTextWords(v: Variant)
    ensures Fields(DefinitionsText(v)) == Names(Definitions(v))
    ensures DefinitionsText(v) == "" <==> v in {A, E}
  {
    var ns := Names(Definitions(v));
    forall k | 0 <= k < |ns|
      ensures ns[k] != "" && NoBlank(ns[k])
    {
      NameIsWord(Definitions(v)[k]);
    }
    FieldsOfWords(ns);
    if ns != [] {
      assert Fields(DefinitionsText(v)) != [];
    }
  }
}
