/** The records the Cicero lookup returns for one official, with every field
    that may be missing as an `Option`. */
module Records {

  datatype Option<+T> = None | Some(value: T) {
    function GetOr(default: T): T {
      match this
      case Some(v) => v
      case None => default
    }
  }

  /** `s || null` for an optional string: both an absent value and the empty
      string are falsy in JavaScript. */
  function Truthy(s: Option<string>): Option<string> {
    if s.Some? && s.value != "" then s else None
  }

  /** `s || ''`: an absent string reads as the empty string. */
  function OrEmpty(s: Option<string>): string {
    s.GetOr("")
  }

  datatype District = District(
    districtType: Option<string>,
    districtLabel: Option<string>,
    city: Option<string>)

  datatype Office = Office(title: Option<string>, district: Option<District>)

  datatype Address = Address(phone1: Option<string>)

  datatype Identifier = Identifier(identifierType: Option<string>, identifierValue: string)

  datatype Official = Official(
    firstName: Option<string>,
    middleInitial: Option<string>,
    lastName: Option<string>,
    nameSuffix: Option<string>,
    party: Option<string>,
    office: Option<Office>,
    photoOriginUrl: Option<string>,
    urls: Option<seq<string>>,
    addresses: Option<seq<Address>>,
    emailAddresses: Option<seq<string>>,
    identifiers: Option<seq<Identifier>>)

  /** An official with nothing but the given name parts. */
  function NamedOfficial(first: string, last: string): Official {
    Official(Some(first), None, Some(last), None, None, None, None, None, None, None, None)
  }
}
