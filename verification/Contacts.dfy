/** Contact prioritization: fill, filter, score, sort and cut, applied by the worker to its
    own output again. */
module Contacts {
  import opened Text
  import opened Ranking
  import opened Selection

  /** A trimmed, non-empty string; "n/v" marks a missing value. */
  type Label = s: string | s != "" && Trimmed(s) witness "n/v"

  const NV: Label := "n/v"
  const PARTIALLY_VERIFIED: Label := "partially_verified"
  const INFERRED: Label := "inferred"

  datatype Contact = Contact(
    name: Label, firma: Label, role: Label, function_: Label, seniority: Label, location: Label, source: Label,
    channelType: Label, verification: Label, buyingCenter: Label, confidence: Label, relevance: Label, angle: Label)

  /** For each schema field, the values found under its accepted names, in the order in which
      they are tried; values that are missing or falsy are left out. */
  datatype Candidates = Candidates(
    name: seq<string>, firma: seq<string>, role: seq<string>, function_: seq<string>, seniority: seq<string>,
    location: seq<string>, source: seq<string>, channelType: seq<string>, verification: seq<string>,
    buyingCenter: seq<string>, confidence: seq<string>, relevance: seq<string>, angle: seq<string>)

  datatype Item = Fields(candidates: Candidates) | PlainText(text: string) | OtherItem

  /** The keyword heuristics: deterministic functions whose contents do not matter here. The
      inferred values are constants of the source, all of them labels. */
  datatype Heuristics = Heuristics(
    lower: string -> string,
    plausibleName: string -> bool,
    functionOf: string -> Label,
    seniorityOf: string -> Label,
    relevanceOf: (string, string) -> Label,
    angleOf: (string, string) -> Label,
    matchesPreferred: (string, seq<string>) -> bool,
    usableSource: string -> bool,
    verified: (Contact, bool) -> bool,
    relevantPath: (string, string) -> bool,
    assetFit: Contact -> bool,
    weakRole: string -> bool,
    baseScore: (Contact, bool) -> int)

  // ---- normalization ----

  /** The first value that is not a placeholder, trimmed. */
  function Pick(values: seq<string>, default: Label): Label {
    if values == [] then default
    else if Trim(values[0]) != "" && Trim(values[0]) != "n/v" then TrimTrimmed(values[0]); Trim(values[0])
    else Pick(values[1..], default)
  }

  /** The first usable value, trimmed, or the default when no value is usable. */
  lemma {:induction false} PickMeaning(values: seq<string>, default: Label)
    ensures || (Pick(values, default) == default && forall i | 0 <= i < |values| :: Placeholder(values[i]))
            || exists i :: 0 <= i < |values| && !Placeholder(values[i]) && Pick(values, default) == Trim(values[i])
                           && forall j | 0 <= j < i :: Placeholder(values[j])
  {
    if values != [] && Placeholder(values[0]) {
      var rest := values[1..];
      PickMeaning(rest, default);
      assert forall i | 1 <= i < |values| :: values[i] == rest[i - 1];
      if i :| 0 <= i < |rest| && !Placeholder(rest[i]) && Pick(rest, default) == Trim(rest[i])
              && forall j | 0 <= j < i :: Placeholder(rest[j]) {
        assert values[i + 1] == rest[i];
        assert forall j | 0 <= j < i + 1 :: Placeholder(values[j]);
      }
    }
  }

  function Normalize(c: Candidates): Contact {
    Contact(
      Pick(c.name, NV), Pick(c.firma, NV), Pick(c.role, NV), Pick(c.function_, NV), Pick(c.seniority, NV),
      Pick(c.location, NV), Pick(c.source, NV), Pick(c.channelType, NV), Pick(c.verification, PARTIALLY_VERIFIED),
      Pick(c.buyingCenter, NV), Pick(c.confidence, INFERRED), Pick(c.relevance, NV), Pick(c.angle, NV))
  }

  function NamedOnly(text: string): Contact
    requires Trim(text) != ""
  {
    TrimTrimmed(text);
    Contact(Trim(text), NV, NV, NV, NV, NV, NV, NV, PARTIALLY_VERIFIED, NV, INFERRED, NV, NV)
  }

  function Coerced(items: seq<Item>): seq<Contact> {
    if items == [] then []
    else
      Coerced(items[..|items| - 1]) +
      match items[|items| - 1]
      case Fields(c) => [Normalize(c)]
      case PlainText(text) => if Trim(text) != "" then [NamedOnly(text)] else []
      case OtherItem => []
  }

  /** Items become contacts one by one and in order: a dictionary is normalized, a text that is not
      blank becomes a name with nothing else known, and anything else is dropped. */
  lemma CoercedMeaning(items: seq<Item>, item: Item)
    ensures Coerced([]) == []
    ensures Coerced(items + [item]) == Coerced(items) +
            (if item.Fields? then [Normalize(item.candidates)]
             else if item.PlainText? && Trim(item.text) != "" then [NamedOnly(item.text)] else [])
  {
    assert (items + [item])[..|items|] == items;
  }

  method CoerceContactRecords(items: seq<Item>) returns (contacts: seq<Contact>)
    ensures contacts == Coerced(items)
  {
    contacts := [];
    for i := 0 to |items|
      invariant contacts == Coerced(items[..i])
    {
      assert items[..i + 1][..i] == items[..i];
      match items[i] {
        case Fields(c) => contacts := contacts + [Normalize(c)];
        case PlainText(text) =>
          if Trim(text) != "" {
            contacts := contacts + [NamedOnly(text)];
          }
        case OtherItem =>
      }
    }
    assert items[..|items|] == items;
  }

  // ---- filling, filtering, scoring ----

  /** Missing function, seniority, relevance and outreach angle are inferred from the role. */
  function Fill(h: Heuristics, c: Contact): Contact {
    var function_ := if c.function_ == NV then h.functionOf(c.role) else c.function_;
    var seniority := if c.seniority == NV then h.seniorityOf(c.role) else c.seniority;
    c.(function_ := function_,
       seniority := seniority,
       relevance := if c.relevance == NV then h.relevanceOf(c.role, function_) else c.relevance,
       angle := if c.angle == NV then h.angleOf(c.role, function_) else c.angle)
  }

  /** Filling never overwrites what is known, and infers nothing but those four fields, each from
      the role and, for the last two, the function just settled. */
  lemma FillKeeps(h: Heuristics, c: Contact)
    ensures var f := Fill(h, c);
            && f == c.(function_ := f.function_, seniority := f.seniority, relevance := f.relevance, angle := f.angle)
            && (c.function_ != NV ==> f.function_ == c.function_)
            && (c.seniority != NV ==> f.seniority == c.seniority)
            && (c.relevance != NV ==> f.relevance == c.relevance)
            && (c.angle != NV ==> f.angle == c.angle)
            && (c.function_ == NV ==> f.function_ == h.functionOf(c.role))
            && (c.seniority == NV ==> f.seniority == h.seniorityOf(c.role))
            && (c.relevance == NV ==> f.relevance == h.relevanceOf(c.role, f.function_))
            && (c.angle == NV ==> f.angle == h.angleOf(c.role, f.function_))
  {
  }

  /** Named, plausibly a person, and with a firm. */
  predicate Identified(h: Heuristics, c: Contact) {
    c.name != NV && h.plausibleName(c.name) && c.firma != NV
  }

  /** The case-folded name and firm. */
  function Key(h: Heuristics, c: Contact): (string, string) {
    (h.lower(c.name), h.lower(c.firma))
  }

  /** The filters applied to a filled contact. */
  predicate Survives(h: Heuristics, preferred: seq<string>, targetMode: bool, c: Contact) {
    && (preferred != [] ==> h.matchesPreferred(c.firma, preferred))
    && !(c.role == NV && c.function_ == NV)
    && h.usableSource(c.source)
    && h.verified(c, targetMode)
    && (!targetMode ==> h.relevantPath(c.role, c.function_) && h.assetFit(c) && !h.weakRole(c.role))
  }

  function Score(h: Heuristics, preferred: seq<string>, targetMode: bool, c: Contact): Scored<Contact> {
    var bonus := if preferred != [] && h.matchesPreferred(c.firma, preferred) then 2 else 0;
    Scored((h.baseScore(c, targetMode) + bonus) as real, c.name, c)
  }

  /** The score is that of the contact itself, and two more at a preferred company. */
  lemma ScoreMeaning(h: Heuristics, preferred: seq<string>, targetMode: bool, c: Contact)
    ensures var x := Score(h, preferred, targetMode, c);
            && x.item == c && x.name == c.name
            && x.score == h.baseScore(c, targetMode) as real
                          + (if |preferred| > 0 && h.matchesPreferred(c.firma, preferred) then 2.0 else 0.0)
  {
  }

  function ContactSelector(h: Heuristics, preferred: seq<string>, targetMode: bool): Selector<Contact, (string, string)> {
    Selector((c: Contact) => Identified(h, c), (c: Contact) => Key(h, c), (c: Contact) => Fill(h, c),
             (c: Contact) => Survives(h, preferred, targetMode, c), (c: Contact) => Score(h, preferred, targetMode, c))
  }

  /** The selector's tests, applied. */
  lemma SelectorAt(h: Heuristics, preferred: seq<string>, targetMode: bool, c: Contact)
    ensures var s := ContactSelector(h, preferred, targetMode);
            && s.identified(c) == Identified(h, c)
            && s.key(c) == Key(h, c)
            && s.fill(c) == Fill(h, c)
            && s.survives(c) == Survives(h, preferred, targetMode, c)
            && s.score(c) == Score(h, preferred, targetMode, c)
  {
  }

  /** The chain of filters in the loop. */
  method PassesFilters(h: Heuristics, preferred: seq<string>, targetMode: bool, contact: Contact) returns (kept: bool)
    ensures kept <==> Survives(h, preferred, targetMode, contact)
  {
    if preferred != [] && !h.matchesPreferred(contact.firma, preferred) {
      return false;
    }
    if contact.role == NV && contact.function_ == NV {
      return false;
    }
    if !h.usableSource(contact.source) {
      return false;
    }
    if !h.verified(contact, targetMode) {
      return false;
    }
    if !targetMode && !h.relevantPath(contact.role, contact.function_) {
      return false;
    }
    if !targetMode && !h.assetFit(contact) {
      return false;
    }
    if !targetMode && h.weakRole(contact.role) {
      return false;
    }
    return true;
  }

  /** `prioritize_contact_records`: the filtering loop with its `seen` set, then sort and cut. */
  method PrioritizeContactRecords(h: Heuristics, items: seq<Item>, preferred: seq<string>, limit: nat, targetMode: bool)
    returns (prioritized: seq<Contact>)
    ensures prioritized == Select(ContactSelector(h, preferred, targetMode), Coerced(items), limit)
  {
    ghost var s := ContactSelector(h, preferred, targetMode);
    var contacts := CoerceContactRecords(items);
    var scored: seq<Scored<Contact>> := [];
    var seen: set<(string, string)> := {};
    for i := 0 to |contacts|
      invariant seen == SeenKeys(s, contacts[..i])
      invariant scored == Candidacy(s, contacts[..i])
    {
      var contact := contacts[i];
      Turn(s, contacts, i);
      SelectorAt(h, preferred, targetMode, contact);
      SelectorAt(h, preferred, targetMode, Fill(h, contact));
      if contact.name == NV || !h.plausibleName(contact.name) || contact.firma == NV {
        continue;
      }
      var key := Key(h, contact);
      if key in seen {
        continue;
      }
      seen := seen + {key};
      contact := Fill(h, contact);
      var kept := PassesFilters(h, preferred, targetMode, contact);
      if !kept {
        continue;
      }
      scored := scored + [Score(h, preferred, targetMode, contact)];
    }
    assert contacts[..|contacts|] == contacts;
    prioritized := ItemsOf(Take(Rank(scored), limit));
  }

  // ---- the output again as input ----

  /** A contact record read back as a dictionary: each value under the schema's own name. */
  function AsItem(c: Contact): Item {
    Fields(Candidates([c.name], [c.firma], [c.role], [c.function_], [c.seniority], [c.location], [c.source],
                      [c.channelType], [c.verification], [c.buyingCenter], [c.confidence], [c.relevance], [c.angle]))
  }

  function AsItems(contacts: seq<Contact>): seq<Item> {
    seq(|contacts|, i requires 0 <= i < |contacts| => AsItem(contacts[i]))
  }

  /** Normalization leaves no missing verification status or confidence. */
  predicate Normal(c: Contact) {
    c.verification != NV && c.confidence != NV
  }

  predicate AllNormal(contacts: seq<Contact>) {
    forall i | 0 <= i < |contacts| :: Normal(contacts[i])
  }

  lemma PickOne(v: Label, default: Label)
    ensures Pick([v], default) == if v == NV then default else v
  {
    TrimTrimmed(v);
    assert Pick([v][1..], default) == default;
  }

  lemma {:induction false} PickNeverMissing(values: seq<string>, default: Label)
    requires default != NV
    ensures Pick(values, default) != NV
  {
    if values != [] && !(Trim(values[0]) != "" && Trim(values[0]) != "n/v") {
      PickNeverMissing(values[1..], default);
    }
  }

  lemma NormalizeAgain(c: Contact)
    requires Normal(c)
    ensures Normalize(AsItem(c).candidates) == c
  {
    PickOne(c.name, NV);
    PickOne(c.firma, NV);
    PickOne(c.role, NV);
    PickOne(c.function_, NV);
    PickOne(c.seniority, NV);
    PickOne(c.location, NV);
    PickOne(c.source, NV);
    PickOne(c.channelType, NV);
    PickOne(c.verification, PARTIALLY_VERIFIED);
    PickOne(c.buyingCenter, NV);
    PickOne(c.confidence, INFERRED);
    PickOne(c.relevance, NV);
    PickOne(c.angle, NV);
  }

  lemma {:induction false} CoercedNormal(items: seq<Item>)
    ensures AllNormal(Coerced(items))
  {
    if items != [] {
      CoercedNormal(items[..|items| - 1]);
      match items[|items| - 1]
      case Fields(c) =>
        PickNeverMissing(c.verification, PARTIALLY_VERIFIED);
        PickNeverMissing(c.confidence, INFERRED);
      case _ =>
    }
  }

  /** One more contact read back. */
  lemma ReadBack(items: seq<Item>, c: Contact)
    requires Normal(c)
    ensures Coerced(items + [AsItem(c)]) == Coerced(items) + [c]
  {
    NormalizeAgain(c);
    assert (items + [AsItem(c)])[..|items|] == items;
  }

  lemma AsItemsOneMore(contacts: seq<Contact>, c: Contact)
    ensures AsItems(contacts + [c]) == AsItems(contacts) + [AsItem(c)]
  {
  }

  lemma {:induction false} CoercedAgain(contacts: seq<Contact>)
    requires AllNormal(contacts)
    ensures Coerced(AsItems(contacts)) == contacts
  {
    if contacts != [] {
      var init, last := contacts[..|contacts| - 1], contacts[|contacts| - 1];
      assert contacts == init + [last];
      CoercedAgain(init);
      AsItemsOneMore(init, last);
      ReadBack(AsItems(init), last);
    }
  }

  lemma FillLawful(h: Heuristics, preferred: seq<string>, targetMode: bool)
    ensures Lawful(ContactSelector(h, preferred, targetMode))
  {
    var s := ContactSelector(h, preferred, targetMode);
    forall c: Contact
      ensures s.fill(s.fill(c)) == s.fill(c) && s.identified(s.fill(c)) == s.identified(c)
      ensures s.key(s.fill(c)) == s.key(c) && s.score(c).item == c
    {
      assert s.fill(c) == Fill(h, c) && s.fill(Fill(h, c)) == Fill(h, Fill(h, c));
    }
  }

  lemma SelectedNormal(h: Heuristics, preferred: seq<string>, targetMode: bool, items: seq<Item>, limit: nat)
    ensures AllNormal(Select(ContactSelector(h, preferred, targetMode), Coerced(items), limit))
  {
    var s := ContactSelector(h, preferred, targetMode);
    var contacts := Coerced(items);
    FillLawful(h, preferred, targetMode);
    CoercedNormal(items);
    CandidacyGood(s, contacts);
    TopGood(s, contacts, limit);
    var output := Select(s, contacts, limit);
    var top := Take(Rank(Candidacy(s, contacts)), limit);
    forall i | 0 <= i < |output| ensures Normal(output[i]) {
      var k :| 0 <= k < |Candidacy(s, contacts)| && Candidacy(s, contacts)[k] == top[i];
      var c :| c in contacts && Candidacy(s, contacts)[k].item == s.fill(c);
      assert s.fill(c) == Fill(h, c);
    }
  }

  /** Prioritization is a projection: applied to its own output with the same preferences it
      returns that output, and with a smaller limit its prefix. */
  lemma PrioritizeIsProjection(h: Heuristics, preferred: seq<string>, targetMode: bool, items: seq<Item>, limit: nat, again: nat)
    ensures var s := ContactSelector(h, preferred, targetMode);
            var output := Select(s, Coerced(items), limit);
            Select(s, Coerced(AsItems(output)), again) == Take(output, again)
  {
    var s := ContactSelector(h, preferred, targetMode);
    FillLawful(h, preferred, targetMode);
    SelectAgain(s, Coerced(items), limit, again);
    SelectedNormal(h, preferred, targetMode, items, limit);
    CoercedAgain(Select(s, Coerced(items), limit));
  }

  /** The output passes every filter: each contact is a plausible person with a firm (a preferred
      one, if any are named), has a role or a function, comes from a usable source and is
      verified; outside target-company mode it also has a relevant path, fits the asset and
      holds no weak role. Nothing of its metadata is still to be inferred. */
  lemma OutputQualifies(h: Heuristics, preferred: seq<string>, targetMode: bool, items: seq<Item>, limit: nat)
    ensures var output := Select(ContactSelector(h, preferred, targetMode), Coerced(items), limit);
            forall i | 0 <= i < |output| ::
              var c := output[i];
              && c.name != NV && h.plausibleName(c.name) && c.firma != NV
              && (preferred == [] || h.matchesPreferred(c.firma, preferred))
              && (c.role != NV || c.function_ != NV)
              && h.usableSource(c.source)
              && h.verified(c, targetMode)
              && (targetMode || (h.relevantPath(c.role, c.function_) && h.assetFit(c) && !h.weakRole(c.role)))
              && Fill(h, c) == c
  {
    var s := ContactSelector(h, preferred, targetMode);
    FillLawful(h, preferred, targetMode);
    TopGood(s, Coerced(items), limit);
    var top := Take(Rank(Candidacy(s, Coerced(items))), limit);
    var output := Select(s, Coerced(items), limit);
    forall i | 0 <= i < |output|
      ensures Identified(h, output[i]) && Survives(h, preferred, targetMode, output[i]) && Fill(h, output[i]) == output[i]
    {
      assert Good(s, top[i]);
      SelectorAt(h, preferred, targetMode, output[i]);
    }
  }

  /** A named person with a firm, as far as the name tells. */
  predicate NamedPerson(h: Heuristics, c: Contact) {
    c.name != NV && h.plausibleName(c.name) && c.firma != NV
  }

  /** The k-th contact is a candidate: a named person, no earlier one has the same name and firm
      up to case, and what is known or inferred about it passes each filter. */
  ghost predicate Candidate(h: Heuristics, preferred: seq<string>, targetMode: bool, contacts: seq<Contact>, k: nat)
    requires k < |contacts|
  {
    var c, f := contacts[k], Fill(h, contacts[k]);
    && NamedPerson(h, c)
    && (forall j | 0 <= j < k && NamedPerson(h, contacts[j]) ::
          !(h.lower(contacts[j].name) == h.lower(c.name) && h.lower(contacts[j].firma) == h.lower(c.firma)))
    && (preferred != [] ==> h.matchesPreferred(f.firma, preferred))
    && (f.role != NV || f.function_ != NV)
    && h.usableSource(f.source)
    && h.verified(f, targetMode)
    && (targetMode || (h.relevantPath(f.role, f.function_) && h.assetFit(f) && !h.weakRole(f.role)))
  }

  lemma ChosenIsCandidate(h: Heuristics, preferred: seq<string>, targetMode: bool, contacts: seq<Contact>, k: nat)
    requires k < |contacts|
    ensures Chosen(ContactSelector(h, preferred, targetMode), contacts, k) <==> Candidate(h, preferred, targetMode, contacts, k)
  {
    var s := ContactSelector(h, preferred, targetMode);
    SelectorAt(h, preferred, targetMode, contacts[k]);
    SelectorAt(h, preferred, targetMode, Fill(h, contacts[k]));
    forall j | 0 <= j < k
      ensures (s.identified(contacts[j]) ==> s.key(contacts[j]) != s.key(contacts[k])) <==>
              (NamedPerson(h, contacts[j]) ==>
                 !(h.lower(contacts[j].name) == h.lower(contacts[k].name) && h.lower(contacts[j].firma) == h.lower(contacts[k].firma)))
    {
      SelectorAt(h, preferred, targetMode, contacts[j]);
    }
  }

  ghost predicate FromCandidate(h: Heuristics, preferred: seq<string>, targetMode: bool, contacts: seq<Contact>, x: Scored<Contact>) {
    exists k :: 0 <= k < |contacts| && Candidate(h, preferred, targetMode, contacts, k)
                && x == Score(h, preferred, targetMode, Fill(h, contacts[k]))
  }

  lemma ScoredFilled(h: Heuristics, preferred: seq<string>, targetMode: bool, c: Contact)
    ensures var s := ContactSelector(h, preferred, targetMode);
            s.score(s.fill(c)) == Score(h, preferred, targetMode, Fill(h, c))
  {
    SelectorAt(h, preferred, targetMode, c);
    SelectorAt(h, preferred, targetMode, Fill(h, c));
  }

  lemma SameOrigin(h: Heuristics, preferred: seq<string>, targetMode: bool, contacts: seq<Contact>, x: Scored<Contact>)
    ensures FromChosen(ContactSelector(h, preferred, targetMode), contacts, x) <==>
            FromCandidate(h, preferred, targetMode, contacts, x)
  {
    var s := ContactSelector(h, preferred, targetMode);
    if FromChosen(s, contacts, x) {
      var k :| 0 <= k < |contacts| && Chosen(s, contacts, k) && x == s.score(s.fill(contacts[k]));
      ChosenIsCandidate(h, preferred, targetMode, contacts, k);
      ScoredFilled(h, preferred, targetMode, contacts[k]);
    }
    if FromCandidate(h, preferred, targetMode, contacts, x) {
      var k :| 0 <= k < |contacts| && Candidate(h, preferred, targetMode, contacts, k)
               && x == Score(h, preferred, targetMode, Fill(h, contacts[k]));
      ChosenIsCandidate(h, preferred, targetMode, contacts, k);
      ScoredFilled(h, preferred, targetMode, contacts[k]);
    }
  }

  /** No contact that should be considered is lost and none is made up: the ranked candidates are
      exactly these contacts, filled. */
  lemma CandidatesExactly(h: Heuristics, preferred: seq<string>, targetMode: bool, items: seq<Item>, x: Scored<Contact>)
    ensures x in Candidacy(ContactSelector(h, preferred, targetMode), Coerced(items)) <==>
            exists k :: 0 <= k < |Coerced(items)| && Candidate(h, preferred, targetMode, Coerced(items), k)
                        && x == Score(h, preferred, targetMode, Fill(h, Coerced(items)[k]))
  {
    CandidacyExactly(ContactSelector(h, preferred, targetMode), Coerced(items));
    SameOrigin(h, preferred, targetMode, Coerced(items), x);
    assert FromCandidate(h, preferred, targetMode, Coerced(items), x) <==>
           exists k :: 0 <= k < |Coerced(items)| && Candidate(h, preferred, targetMode, Coerced(items), k)
                       && x == Score(h, preferred, targetMode, Fill(h, Coerced(items)[k]));
  }

  /** What the output is: unique by case-folded name and firm, ordered by score and then name,
      and the true top of all surviving candidates. */
  lemma PrioritizedMeaning(h: Heuristics, preferred: seq<string>, targetMode: bool, items: seq<Item>, limit: nat)
    ensures var s := ContactSelector(h, preferred, targetMode);
            var all, output := Candidacy(s, Coerced(items)), Select(s, Coerced(items), limit);
            && |output| <= limit
            && (forall i, j | 0 <= i < j < |output| ::
                  && !(h.lower(output[i].name) == h.lower(output[j].name) && h.lower(output[i].firma) == h.lower(output[j].firma))
                  && Ahead(Score(h, preferred, targetMode, output[i]), Score(h, preferred, targetMode, output[j])))
            && (forall i | 0 <= i < |output| :: Score(h, preferred, targetMode, output[i]) in all)
            && (forall x, i | x in all && x.item !in output && 0 <= i < |output| ::
                  Ahead(Score(h, preferred, targetMode, output[i]), x))
  {
    var s := ContactSelector(h, preferred, targetMode);
    FillLawful(h, preferred, targetMode);
    SelectMeaning(s, Coerced(items), limit);
    var output := Select(s, Coerced(items), limit);
    forall i | 0 <= i < |output|
      ensures s.key(output[i]) == Key(h, output[i]) && s.score(output[i]) == Score(h, preferred, targetMode, output[i])
    {
    }
  }
}
