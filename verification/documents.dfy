/**
 * The documents screen: the document type guessed from an uploaded file's
 * name, the display configuration per type with its fallback, the
 * case-insensitive name search and the upload that prepends the saved record.
 */
module Documents {
  import opened Collections
  import opened Text
  import opened Types
  import Database

  datatype DocType = Ticket | Reservation | Insurance | Other

  /** The string stored in a document's `type` field. */
  function TypeName(t: DocType): string {
    match t
    case Ticket => "ticket"
    case Reservation => "reservation"
    case Insurance => "insurance"
    case Other => "other"
  }

  /** The key lookup `docTypes[doc.type]`: only the four known names hit. */
  function ParseType(kind: string): (r: Option<DocType>)
    ensures r.Some? ==> TypeName(r.value) == kind
  {
    if kind == "ticket" then Some(Ticket)
    else if kind == "reservation" then Some(Reservation)
    else if kind == "insurance" then Some(Insurance)
    else if kind == "other" then Some(Other)
    else None
  }

  /** Every type's stored name reads back as that type. */
  lemma ParseTypeName(t: DocType)
    ensures ParseType(TypeName(t)) == Some(t)
  {
  }

  predicate MentionsTicket(lower: string) {
    Contains(lower, "ticket") || Contains(lower, "vuelo") || Contains(lower, "pass")
  }

  predicate MentionsReservation(lower: string) {
    Contains(lower, "reserva") || Contains(lower, "hotel") || Contains(lower, "booking")
  }

  predicate MentionsInsurance(lower: string) {
    Contains(lower, "seguro") || Contains(lower, "insurance")
  }

  /**
   * The upload handler's type guess: three keyword tests run in turn on the
   * lower-cased name, each overwriting the previous guess, so the insurance
   * keywords beat the reservation keywords, which beat the ticket keywords.
   */
  function Classify(fileName: string): (t: DocType)
    ensures var n := ToLower(fileName);
            && (t == Insurance <==> MentionsInsurance(n))
            && (t == Reservation <==> !MentionsInsurance(n) && MentionsReservation(n))
            && (t == Ticket <==> !MentionsInsurance(n) && !MentionsReservation(n) && MentionsTicket(n))
            && (t == Other <==> !MentionsInsurance(n) && !MentionsReservation(n) && !MentionsTicket(n))
  {
    var n := ToLower(fileName);
    var guess := Other;
    var guess := if MentionsTicket(n) then Ticket else guess;
    var guess := if MentionsReservation(n) then Reservation else guess;
    if MentionsInsurance(n) then Insurance else guess
  }

  /** The guess ignores letter case: a name and its lower-cased form get the same type. */
  lemma ClassifyIgnoresCase(fileName: string)
    ensures Classify(ToLower(fileName)) == Classify(fileName)
  {
    ToLowerIdempotent(fileName);
  }

  datatype DocConfig = DocConfig(caption: string, color: string)

  function ConfigOf(t: DocType): DocConfig {
    match t
    case Ticket => DocConfig("Tickets / Vuelos", "bg-blue-50 text-blue-600")
    case Reservation => DocConfig("Reservas", "bg-emerald-50 text-emerald-600")
    case Insurance => DocConfig("Seguros", "bg-orange-50 text-orange-600")
    case Other => DocConfig("Otros", "bg-slate-50 text-slate-600")
  }

  /** `docTypes[doc.type] || docTypes.other`: an unknown stored type shows as 'other'. */
  function ConfigFor(kind: string): (c: DocConfig)
    ensures ParseType(kind).None? ==> c == ConfigOf(Other)
    ensures ParseType(kind).Some? ==> c == ConfigOf(ParseType(kind).value)
  {
    match ParseType(kind)
    case Some(t) => ConfigOf(t)
    case None => ConfigOf(Other)
  }

  /** A document written by the upload handler always shows the configuration of its guessed type. */
  lemma ConfigForClassified(fileName: string)
    ensures ConfigFor(TypeName(Classify(fileName))) == ConfigOf(Classify(fileName))
  {
    ParseTypeName(Classify(fileName));
  }

  /** `filteredDocs`: the documents whose lower-cased name contains the lower-cased term, in order. */
  function Search(docs: seq<Document>, term: string): (r: seq<Document>)
    ensures forall d :: d in r <==> d in docs && Contains(ToLower(d.name), ToLower(term))
    ensures forall d :: multiset(r)[d] == if Contains(ToLower(d.name), ToLower(term)) then multiset(docs)[d] else 0
    ensures IsSubsequence(r, docs)
  {
    var needle := ToLower(term);
    Filter(docs, (d: Document) => Contains(ToLower(d.name), needle))
  }

  /** An empty search term keeps every document. */
  lemma SearchEmptyKeepsAll(docs: seq<Document>)
    ensures Search(docs, "") == docs
  {
    forall d | d in docs ensures Contains(ToLower(d.name), "") {
      ContainsEmpty(ToLower(d.name));
    }
    FilterKeepsAll(docs, (d: Document) => Contains(ToLower(d.name), ToLower("")));
  }

  /** The search ignores the letter case of the term. */
  lemma SearchIgnoresCase(docs: seq<Document>, term: string)
    ensures Search(docs, ToLower(term)) == Search(docs, term)
  {
    ToLowerIdempotent(term);
  }

  /**
   * `handleFileChange`: with no file nothing happens; otherwise the document
   * is saved with its guessed type and url '#', and the shown list gets the
   * saved record in front of the previous list.
   */
  function HandleFileChange(s: Database.Store, shown: seq<Document>, tripId: Id, file: Option<string>, id: Id, date: string)
    : (r: (Database.Store, seq<Document>))
    ensures file.None? ==> r == (s, shown)
    ensures file.Some? ==>
              && |r.1| == |shown| + 1 && r.1[1..] == shown
              && r.1[0].name == file.value && r.1[0].tripId == tripId && r.1[0].id == id
              && r.1[0].url == "#" && r.1[0].date == date
              && ParseType(r.1[0].kind) == Some(Classify(file.value))
              && r.0.documents == Some(Database.AllDocuments(s) + [r.1[0]])
              && r.0.(documents := s.documents) == s
  {
    match file
    case None => (s, shown)
    case Some(name) =>
      var saved := Database.AddDocument(s, Database.DocumentDraft(tripId, name, TypeName(Classify(name)), "#", date), id);
      ParseTypeName(Classify(name));
      (saved.store, [saved.value] + shown)
  }
}
