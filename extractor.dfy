/**
 * The Page Extractor: the callback run inside the loaded listing-index page
 * (public/js/scrape_kijiji.js, lines 34-63). Each listing card becomes one
 * ListingRecord; each of its eleven fields is the trimmed text of the
 * element found by that field's selector, or the field's fixed sentinel.
 */
module Extractor {
  import opened JsText

  /** The eleven fields of a listing record, in the order the source builds them. */
  datatype Field =
    | Title | Price | Location | Area | Description | Bedrooms
    | Bathrooms | Size | UnitType | Parking | PetsFriendly

  /** One scraped unit; every field is always a string. */
  datatype ListingRecord = ListingRecord(
    title: string,
    price: string,
    location: string,
    area: string,
    description: string,
    bedrooms: string,
    bathrooms: string,
    size: string,
    unitType: string,
    parking: string,
    petsFriendly: string)

  /** The value a record holds for a field. */
  function FieldOf(r: ListingRecord, f: Field): string {
    match f
    case Title => r.title
    case Price => r.price
    case Location => r.location
    case Area => r.area
    case Description => r.description
    case Bedrooms => r.bedrooms
    case Bathrooms => r.bathrooms
    case Size => r.size
    case UnitType => r.unitType
    case Parking => r.parking
    case PetsFriendly => r.petsFriendly
  }

  /** The CSS selector each field's element is looked up with inside a card. */
  function Selector(f: Field): string {
    match f
    case Title => "h3[data-testid=\"listing-title\"] a[data-testid=\"listing-link\"]"
    case Price => "p[data-testid=\"listing-price\"]"
    case Location => "p[data-testid=\"listing-location\"]"
    case Area => "li[aria-label=\"Nearest intersection\"] p"
    case Description => "p[data-testid=\"listing-description\"]"
    case Bedrooms => "li[aria-label=\"Bedrooms\"] p"
    case Bathrooms => "li[aria-label=\"Bathrooms\"] p"
    case Size => "li[aria-label=\"Size (sqft)\"] p"
    case UnitType => "li[aria-label=\"Unit type\"] p"
    case Parking => "li[aria-label=\"Parking included\"] p"
    case PetsFriendly => "li[aria-label=\"Pets friendly\"] p"
  }

  /** The text stored when a card has no element for the field. */
  function Sentinel(f: Field): string {
    match f
    case Title => "Title not found"
    case Price => "Price not found"
    case Location => "Location not found"
    case Area => "Area not found"
    case Description => "Description not found"
    case Bedrooms => "Bedrooms not found"
    case Bathrooms => "Bathrooms not found"
    case Size => "Size not found"
    case UnitType => "Unit Type not found"
    case Parking => "Parking not found"
    case PetsFriendly => "Pets information not found"
  }

  /**
   * A listing card as the extractor sees it: for each field whose selector
   * matches inside the card, the innerText of the first matching element. A
   * field missing from the map is a querySelector that returned null.
   */
  type Card = map<Field, string>

  /** One field of one card: the element's trimmed text, or the sentinel. */
  function ExtractField(card: Card, f: Field): string {
    if f in card then Trim(card[f]) else Sentinel(f)
  }

  /** The record built for one card. */
  function ExtractRecord(card: Card): ListingRecord {
    ListingRecord(
      title := ExtractField(card, Title),
      price := ExtractField(card, Price),
      location := ExtractField(card, Location),
      area := ExtractField(card, Area),
      description := ExtractField(card, Description),
      bedrooms := ExtractField(card, Bedrooms),
      bathrooms := ExtractField(card, Bathrooms),
      size := ExtractField(card, Size),
      unitType := ExtractField(card, UnitType),
      parking := ExtractField(card, Parking),
      petsFriendly := ExtractField(card, PetsFriendly))
  }

  /** The records of a page: one per card, in document order (the `map` over the cards). */
  function ExtractPage(cards: seq<Card>): (r: seq<ListingRecord>)
    ensures |r| == |cards|
  {
    seq(|cards|, i requires 0 <= i < |cards| => ExtractRecord(cards[i]))
  }

  /** The extraction of a run of cards is the extraction of its parts, in order. */
  lemma ExtractPageAppend(a: seq<Card>, b: seq<Card>)
    ensures ExtractPage(a + b) == ExtractPage(a) + ExtractPage(b)
  {
    var l, r := ExtractPage(a + b), ExtractPage(a) + ExtractPage(b);
    forall i | 0 <= i < |l| ensures l[i] == r[i] {
      if i < |a| {
        assert (a + b)[i] == a[i];
      } else {
        assert (a + b)[i] == b[i - |a|];
      }
    }
  }

  /** The record puts each field's extraction in that field's place. */
  lemma RecordFieldIsExtracted(card: Card, f: Field)
    ensures FieldOf(ExtractRecord(card), f) == ExtractField(card, f)
  {
    match f
    case Title =>
    case Price =>
    case Location =>
    case Area =>
    case Description =>
    case Bedrooms =>
    case Bathrooms =>
    case Size =>
    case UnitType =>
    case Parking =>
    case PetsFriendly =>
  }

  /**
   * Each field of a card's record is looked up on its own: a missing element
   * gives exactly that field's sentinel, a found one its text with the
   * surrounding whitespace cut off, whatever the card's other elements are.
   */
  lemma FieldLookup(card: Card, f: Field)
    ensures f !in card ==> FieldOf(ExtractRecord(card), f) == Sentinel(f)
    ensures f in card ==> FieldOf(ExtractRecord(card), f) == Trim(card[f])
    ensures f in card ==> IsTrimmed(FieldOf(ExtractRecord(card), f))
  {
    RecordFieldIsExtracted(card, f);
    if f in card {
      TrimIsInnerPiece(card[f]);
    }
  }

  /** No sentinel starts or ends with whitespace. */
  lemma SentinelTrimmed(f: Field)
    ensures IsTrimmed(Sentinel(f))
  {
    match f
    case Title =>
    case Price =>
    case Location =>
    case Area =>
    case Description =>
    case Bedrooms =>
    case Bathrooms =>
    case Size =>
    case UnitType =>
    case Parking =>
    case PetsFriendly =>
  }

  /**
   * Every field of every extracted record has no surrounding whitespace:
   * a found element's text is trimmed, and no sentinel starts or ends blank.
   */
  lemma ExtractedFieldTrimmed(card: Card, f: Field)
    ensures IsTrimmed(FieldOf(ExtractRecord(card), f))
  {
    FieldLookup(card, f);
    if f !in card {
      SentinelTrimmed(f);
    }
  }
}
