/** The contact viewer's vCard reader: the FN, N, TEL, EMAIL, ORG, TITLE,
    ADR, NOTE, BDAY and URL properties of a vCard (sections 6.2.1, 6.2.2,
    6.4.1, 6.4.2, 6.6.4, 6.6.1, 6.3.1, 6.7.2, 6.2.5 and 6.7.8 of RFC 6350),
    read line by line into one contact, and the number check done before
    a call. The file is given already decoded. */
module Contacts {
  import opened Wrappers
  import opened Strings

  datatype Phone = Phone(number: string, kind: string, raw: string)
  datatype Email = Email(address: string, kind: string)
  datatype PostalAddress = PostalAddress(address: string, kind: string, raw: string)

  datatype Contact = Contact(
    name: string,
    phones: seq<Phone>,
    emails: seq<Email>,
    organization: string,
    title: string,
    addresses: seq<PostalAddress>,
    notes: string,
    birthday: string,
    website: string,
    rawContent: string)

  /** The contact before any line is read. */
  function EmptyContact(content: string): Contact {
    Contact("", [], [], "", "", [], "", "", "", content)
  }

  // ---------------------------------------------------------------- one property line

  /** line.split(':', 1) on a line with a colon. */
  function SplitColon(line: string): (r: (string, string))
    requires ':' in line
    ensures ':' !in r.0 && line == r.0 + ":" + r.1
  {
    var i := IndexOfChar(line, ':');
    assert line == line[..i] + ":" + line[i + 1..];
    (line[..i], line[i + 1..])
  }

  /** The type of a TEL line: CELL or MOBILE, then HOME, WORK, FAX. */
  function PhoneType(typePart: string): string {
    if Contains(typePart, "CELL") || Contains(typePart, "MOBILE") then "Mobile"
    else if Contains(typePart, "HOME") then "Home"
    else if Contains(typePart, "WORK") then "Work"
    else if Contains(typePart, "FAX") then "Fax"
    else "Other"
  }

  /** Each keyword names its type only when no earlier keyword occurs. */
  lemma PhoneTypePrecedence(typePart: string)
    ensures var mobile := Contains(typePart, "CELL") || Contains(typePart, "MOBILE");
      && (PhoneType(typePart) == "Mobile" <==> mobile)
      && (PhoneType(typePart) == "Home" <==> !mobile && Contains(typePart, "HOME"))
      && (PhoneType(typePart) == "Work" <==> !mobile && !Contains(typePart, "HOME") && Contains(typePart, "WORK"))
      && (PhoneType(typePart) == "Fax" <==>
            !mobile && !Contains(typePart, "HOME") && !Contains(typePart, "WORK") && Contains(typePart, "FAX"))
      && (PhoneType(typePart) == "Other" <==>
            !mobile && !Contains(typePart, "HOME") && !Contains(typePart, "WORK") && !Contains(typePart, "FAX"))
  {
  }

  /** The type of an EMAIL or ADR line: HOME before WORK. */
  function HomeWorkType(typePart: string): (t: string)
    ensures t == "Home" <==> Contains(typePart, "HOME")
    ensures t == "Work" <==> !Contains(typePart, "HOME") && Contains(typePart, "WORK")
    ensures t == "Other" <==> !Contains(typePart, "HOME") && !Contains(typePart, "WORK")
  {
    if Contains(typePart, "HOME") then "Home"
    else if Contains(typePart, "WORK") then "Work"
    else "Other"
  }

  /** The characters a cleaned phone number keeps. */
  predicate IsPhoneChar(c: char) {
    IsDigit(c) || c == '+' || c == '-' || c == '(' || c == ')' || IsSpace(c)
  }

  /** parse_phone_line */
  function ParsePhoneLine(line: string): (r: Option<Phone>)
    ensures r.None? <==> ':' !in line
    ensures r.Some? ==>
      && r.value.raw == Strip(SplitColon(line).1)
      && r.value.kind == PhoneType(SplitColon(line).0)
      && forall i :: 0 <= i < |r.value.number| ==> IsPhoneChar(r.value.number[i])
  {
    if ':' !in line then None
    else
      var (typePart, number) := SplitColon(line);
      Some(Phone(Keep(Strip(number), IsPhoneChar), PhoneType(typePart), Strip(number)))
  }

  /** A number written only with phone characters is kept as written. */
  lemma CleanNumberKeepsPhoneChars(line: string)
    requires ':' in line
    requires var raw := Strip(SplitColon(line).1); forall i :: 0 <= i < |raw| ==> IsPhoneChar(raw[i])
    ensures ParsePhoneLine(line).value.number == ParsePhoneLine(line).value.raw
  {
    KeepAll(Strip(SplitColon(line).1), IsPhoneChar);
  }

  /** parse_email_line */
  function ParseEmailLine(line: string): (r: Option<Email>)
    ensures r.None? <==> ':' !in line
    ensures r.Some? ==> r.value.address == Strip(SplitColon(line).1) && r.value.kind == HomeWorkType(SplitColon(line).0)
  {
    if ':' !in line then None
    else
      var (typePart, address) := SplitColon(line);
      Some(Email(Strip(address), HomeWorkType(typePart)))
  }

  /** The k-th ';'-separated component, when it exists and is non-empty. */
  function Component(parts: seq<string>, k: nat): (r: seq<string>)
    ensures |r| <= 1
    ensures r == [] <==> k >= |parts| || parts[k] == ""
    ensures r != [] ==> r[0] == parts[k]
  {
    if k < |parts| && parts[k] != "" then [parts[k]] else []
  }

  /** Street, locality, region, postal code and country, the empty ones left out. */
  function ReadableParts(parts: seq<string>): seq<string> {
    Component(parts, 2) + Component(parts, 3) + Component(parts, 4) + Component(parts, 5) + Component(parts, 6)
  }

  /** The readable parts are the non-empty components 2 to 6, in order. */
  lemma ReadablePartsAreComponents(parts: seq<string>)
    ensures |ReadableParts(parts)| <= 5
    ensures forall s :: s in ReadableParts(parts) <==> exists k :: 2 <= k <= 6 && k < |parts| && parts[k] == s && s != ""
  {
    forall s ensures s in ReadableParts(parts) <==> exists k :: 2 <= k <= 6 && k < |parts| && parts[k] == s && s != "" {
      ReadableMember(parts, s);
      ExistsFive(parts, s);
    }
  }

  /** `s` is the k-th component, and not empty. */
  predicate At(parts: seq<string>, k: nat, s: string) {
    k < |parts| && parts[k] == s && s != ""
  }

  lemma ReadableMember(parts: seq<string>, s: string)
    ensures s in ReadableParts(parts) <==> At(parts, 2, s) || At(parts, 3, s) || At(parts, 4, s) || At(parts, 5, s) || At(parts, 6, s)
  {
    InFive(s, Component(parts, 2), Component(parts, 3), Component(parts, 4), Component(parts, 5), Component(parts, 6));
    ComponentIff(parts, 2, s);
    ComponentIff(parts, 3, s);
    ComponentIff(parts, 4, s);
    ComponentIff(parts, 5, s);
    ComponentIff(parts, 6, s);
  }

  lemma ExistsFive(parts: seq<string>, s: string)
    ensures (exists k :: 2 <= k <= 6 && k < |parts| && parts[k] == s && s != "")
        <==> At(parts, 2, s) || At(parts, 3, s) || At(parts, 4, s) || At(parts, 5, s) || At(parts, 6, s)
  {
    if exists k :: 2 <= k <= 6 && k < |parts| && parts[k] == s && s != "" {
      var k :| 2 <= k <= 6 && k < |parts| && parts[k] == s && s != "";
      assert At(parts, k, s);
    }
  }

  lemma InFive(s: string, a: seq<string>, b: seq<string>, c: seq<string>, d: seq<string>, e: seq<string>)
    ensures s in a + b + c + d + e <==> s in a || s in b || s in c || s in d || s in e
  {
  }

  lemma ComponentIff(parts: seq<string>, k: nat, s: string)
    ensures s in Component(parts, k) <==> At(parts, k, s)
  {
  }

  /** With all five present, the readable parts are exactly components 2 to 6. */
  lemma ReadablePartsAllPresent(parts: seq<string>)
    requires |parts| >= 7 && forall k :: 2 <= k <= 6 ==> parts[k] != ""
    ensures ReadableParts(parts) == parts[2..7]
  {
    assert ReadableParts(parts) == [parts[2], parts[3], parts[4], parts[5], parts[6]];
  }

  /** parse_address_line: the components are those of the text after the
      colon, not stripped. */
  function ParseAddressLine(line: string): (r: Option<PostalAddress>)
    ensures r.None? <==> ':' !in line
    ensures r.Some? ==>
      && r.value.raw == SplitColon(line).1
      && r.value.kind == HomeWorkType(SplitColon(line).0)
      && r.value.address == Join(ReadableParts(Split(SplitColon(line).1, ';')), ", ")
  {
    if ':' !in line then None
    else
      var (typePart, address) := SplitColon(line);
      Some(PostalAddress(Join(ReadableParts(Split(address, ';')), ", "), HomeWorkType(typePart), address))
  }

  // ---------------------------------------------------------------- the line loop

  /** Which branch of the line dispatch a (stripped) line takes. */
  datatype Property = FullName | StructuredName | Tel | EmailProp | Org | Title | Adr | Note | Birthday | Url | Ignored

  function PropertyOf(line: string): Property {
    if StartsWith(line, "FN:") then FullName
    else if StartsWith(line, "N:") then StructuredName
    else if StartsWith(line, "TEL") then Tel
    else if StartsWith(line, "EMAIL") then EmailProp
    else if StartsWith(line, "ORG:") then Org
    else if StartsWith(line, "TITLE:") then Title
    else if StartsWith(line, "ADR") then Adr
    else if StartsWith(line, "NOTE:") then Note
    else if StartsWith(line, "BDAY:") then Birthday
    else if StartsWith(line, "URL:") then Url
    else Ignored
  }

  /** The single-valued properties and the contact field each one sets. */
  predicate SingleValued(p: Property) { p in {Org, Title, Note, Birthday, Url} }

  function PrefixOf(p: Property): string
    requires SingleValued(p)
  {
    match p
    case Org => "ORG:"
    case Title => "TITLE:"
    case Note => "NOTE:"
    case Birthday => "BDAY:"
    case Url => "URL:"
  }

  function FieldValue(c: Contact, p: Property): string
    requires SingleValued(p)
  {
    match p
    case Org => c.organization
    case Title => c.title
    case Note => c.notes
    case Birthday => c.birthday
    case Url => c.website
  }

  /** The contact with the field of single-valued property `p` replaced by `v`. */
  function SetField(c: Contact, p: Property, v: string): (r: Contact)
    requires SingleValued(p)
    ensures FieldValue(r, p) == v
    ensures forall q :: SingleValued(q) && q != p ==> FieldValue(r, q) == FieldValue(c, q)
    ensures r.name == c.name && r.phones == c.phones && r.emails == c.emails && r.addresses == c.addresses
  {
    match p
    case Org => c.(organization := v)
    case Title => c.(title := v)
    case Note => c.(notes := v)
    case Birthday => c.(birthday := v)
    case Url => c.(website := v)
  }

  /** The name the N value gives: "Given Family", stripped, when it has at
      least two components. */
  function StructuredNameOf(value: string): Option<string> {
    var parts := Split(value, ';');
    if |parts| >= 2 then Some(Strip(Strip(parts[1]) + " " + Strip(parts[0]))) else None
  }

  /** What one stripped line does to the contact being built. */
  function Step(c: Contact, line: string): Contact {
    match PropertyOf(line)
    case FullName => c.(name := Strip(line[3..]))
    case StructuredName =>
      var n := StructuredNameOf(line[2..]);
      if n.Some? && c.name == "" then c.(name := n.value) else c
    case Tel => if ':' in line then c.(phones := c.phones + [ParsePhoneLine(line).value]) else c
    case EmailProp => if ':' in line then c.(emails := c.emails + [ParseEmailLine(line).value]) else c
    case Adr => if ':' in line then c.(addresses := c.addresses + [ParseAddressLine(line).value]) else c
    case Ignored => c
    case _ => SetField(c, PropertyOf(line), Strip(line[|PrefixOf(PropertyOf(line))|..]))
  }

  /** The contact after reading the lines in order (each one stripped). */
  function ParseLines(lines: seq<string>, init: Contact): Contact {
    if lines == [] then init
    else Step(ParseLines(lines[..|lines| - 1], init), Strip(lines[|lines| - 1]))
  }

  /** The name fallback: the first phone's number, else "Unknown Contact". */
  function Finish(c: Contact): Contact {
    if c.name == "" && c.phones != [] then c.(name := c.phones[0].number)
    else if c.name == "" then c.(name := "Unknown Contact")
    else c
  }

  /** parse_vcf_contact on decoded text. */
  function ParseVcf(content: string): Contact {
    Finish(ParseLines(Split(content, '\n'), EmptyContact(content)))
  }

  lemma ParseLinesNext(lines: seq<string>, i: nat, init: Contact)
    requires i < |lines|
    ensures ParseLines(lines[..i + 1], init) == Step(ParseLines(lines[..i], init), Strip(lines[i]))
  {
    assert lines[..i + 1][..i] == lines[..i];
  }

  /** A blank line changes nothing. */
  lemma BlankIgnored(c: Contact)
    ensures Step(c, "") == c
  {
    assert PropertyOf("") == Ignored;
  }

  /** parse_vcf_contact: the lines are read in order, blank ones skipped. */
  method ParseVcfContact(content: string) returns (contact: Contact)
    ensures contact == ParseVcf(content)
  {
    var lines := Split(content, '\n');
    contact := EmptyContact(content);
    var i := 0;
    while i < |lines|
      invariant 0 <= i <= |lines|
      invariant contact == ParseLines(lines[..i], EmptyContact(content))
    {
      ParseLinesNext(lines, i, EmptyContact(content));
      var line := Strip(lines[i]);
      if line != "" {
        contact := Step(contact, line);
      } else {
        BlankIgnored(contact);
      }
      i := i + 1;
    }
    assert lines[..|lines|] == lines;
    contact := Finish(contact);
  }

  // ---------------------------------------------------------------- what the loop collects

  /** A line starts with its prefix's first characters. */
  lemma HeadOf(line: string, p: string, k: nat)
    requires StartsWith(line, p) && k < |p|
    ensures line[k] == p[k]
  {
    assert line[..|p|][k] == line[k];
  }

  /** The multi-valued properties are recognised by their prefix alone. */
  lemma MultiValuedProperty(line: string)
    ensures PropertyOf(line) == Tel <==> StartsWith(line, "TEL")
    ensures PropertyOf(line) == EmailProp <==> StartsWith(line, "EMAIL")
    ensures PropertyOf(line) == Adr <==> StartsWith(line, "ADR")
  {
    if StartsWith(line, "TEL") { HeadOf(line, "TEL", 0); }
    if StartsWith(line, "EMAIL") { HeadOf(line, "EMAIL", 0); }
    if StartsWith(line, "ADR") { HeadOf(line, "ADR", 0); }
    if StartsWith(line, "FN:") { HeadOf(line, "FN:", 0); }
    if StartsWith(line, "N:") { HeadOf(line, "N:", 0); }
  }

  /** So are the single-valued ones. */
  lemma SingleValuedProperty(line: string, p: Property)
    requires SingleValued(p)
    ensures PropertyOf(line) == p <==> StartsWith(line, PrefixOf(p))
  {
    var q := PrefixOf(p);
    if StartsWith(line, q) {
      HeadOf(line, q, 0);
      HeadOf(line, q, 1);
      if StartsWith(line, "N:") { HeadOf(line, "N:", 1); }
      if StartsWith(line, "TEL") { HeadOf(line, "TEL", 1); }
    }
  }

  /** The phone a line adds: one for each TEL line with a colon. */
  function PhoneOf(line: string): seq<Phone> {
    if StartsWith(line, "TEL") && ':' in line then [ParsePhoneLine(line).value] else []
  }

  function EmailOf(line: string): seq<Email> {
    if StartsWith(line, "EMAIL") && ':' in line then [ParseEmailLine(line).value] else []
  }

  function AddressOf(line: string): seq<PostalAddress> {
    if StartsWith(line, "ADR") && ':' in line then [ParseAddressLine(line).value] else []
  }

  /** Every line adds its phone entry, if any, and nothing more. */
  lemma StepPhones(c: Contact, line: string)
    ensures Step(c, line).phones == c.phones + PhoneOf(line)
  {
    MultiValuedProperty(line);
  }

  lemma StepEmails(c: Contact, line: string)
    ensures Step(c, line).emails == c.emails + EmailOf(line)
  {
    MultiValuedProperty(line);
  }

  lemma StepAddresses(c: Contact, line: string)
    ensures Step(c, line).addresses == c.addresses + AddressOf(line)
  {
    MultiValuedProperty(line);
  }

  /** The phones of the lines, in input order. */
  function PhonesOf(lines: seq<string>): seq<Phone> {
    if lines == [] then [] else PhonesOf(lines[..|lines| - 1]) + PhoneOf(Strip(lines[|lines| - 1]))
  }

  function EmailsOf(lines: seq<string>): seq<Email> {
    if lines == [] then [] else EmailsOf(lines[..|lines| - 1]) + EmailOf(Strip(lines[|lines| - 1]))
  }

  function AddressesOf(lines: seq<string>): seq<PostalAddress> {
    if lines == [] then [] else AddressesOf(lines[..|lines| - 1]) + AddressOf(Strip(lines[|lines| - 1]))
  }

  /** TEL lines with a colon append exactly one phone each, in input
      order; TEL lines without a colon add nothing. */
  lemma {:induction false} ParseLinesPhones(lines: seq<string>, init: Contact)
    requires init.phones == []
    ensures ParseLines(lines, init).phones == PhonesOf(lines)
  {
    if lines != [] {
      var front := lines[..|lines| - 1];
      ParseLinesPhones(front, init);
      StepPhones(ParseLines(front, init), Strip(lines[|lines| - 1]));
    }
  }

  /** The same for EMAIL lines. */
  lemma {:induction false} ParseLinesEmails(lines: seq<string>, init: Contact)
    requires init.emails == []
    ensures ParseLines(lines, init).emails == EmailsOf(lines)
  {
    if lines != [] {
      var front := lines[..|lines| - 1];
      ParseLinesEmails(front, init);
      StepEmails(ParseLines(front, init), Strip(lines[|lines| - 1]));
    }
  }

  /** The same for ADR lines. */
  lemma {:induction false} ParseLinesAddresses(lines: seq<string>, init: Contact)
    requires init.addresses == []
    ensures ParseLines(lines, init).addresses == AddressesOf(lines)
  {
    if lines != [] {
      var front := lines[..|lines| - 1];
      ParseLinesAddresses(front, init);
      StepAddresses(ParseLines(front, init), Strip(lines[|lines| - 1]));
    }
  }


  /** The value of the last line that starts with the prefix (stripped
      after the prefix), if any. */
  function LastValue(lines: seq<string>, prefix: string): Option<string> {
    if lines == [] then None
    else
      var line := Strip(lines[|lines| - 1]);
      if StartsWith(line, prefix) then Some(Strip(line[|prefix|..]))
      else LastValue(lines[..|lines| - 1], prefix)
  }

  /** A single-valued property's line sets its field and no other line does. */
  lemma StepSingleValued(c: Contact, line: string, p: Property)
    requires SingleValued(p)
    ensures FieldValue(Step(c, line), p) ==
      if StartsWith(line, PrefixOf(p)) then Strip(line[|PrefixOf(p)|..]) else FieldValue(c, p)
  {
    SingleValuedProperty(line, p);
  }

  /** ORG, TITLE, NOTE, BDAY and URL are single-valued: the last such line wins. */
  lemma {:induction false} LastLineWins(lines: seq<string>, init: Contact, p: Property)
    requires SingleValued(p)
    ensures FieldValue(ParseLines(lines, init), p) ==
      match LastValue(lines, PrefixOf(p)) case Some(v) => v case None => FieldValue(init, p)
  {
    if lines != [] {
      var front := lines[..|lines| - 1];
      LastLineWins(front, init, p);
      StepSingleValued(ParseLines(front, init), Strip(lines[|lines| - 1]), p);
    }
  }

  /** An FN line sets the name; an N line only fills an empty one; no other
      line touches it. */
  lemma StepName(c: Contact, line: string)
    ensures StartsWith(line, "FN:") ==> Step(c, line).name == Strip(line[3..])
    ensures !StartsWith(line, "FN:") && c.name != "" ==> Step(c, line).name == c.name
    ensures !StartsWith(line, "FN:") && !StartsWith(line, "N:") ==> Step(c, line).name == c.name
  {
    if StartsWith(line, "FN:") {
      assert PropertyOf(line) == FullName;
    } else if StartsWith(line, "N:") {
      assert PropertyOf(line) == StructuredName;
      StructuredKeepsName(c, line);
    } else {
      assert PropertyOf(line) != StructuredName && PropertyOf(line) != FullName;
      OtherKeepsName(c, line);
    }
  }

  lemma StructuredKeepsName(c: Contact, line: string)
    requires PropertyOf(line) == StructuredName
    ensures c.name != "" ==> Step(c, line).name == c.name
  {
  }

  lemma OtherKeepsName(c: Contact, line: string)
    requires PropertyOf(line) != FullName && PropertyOf(line) != StructuredName
    ensures Step(c, line).name == c.name
  {
  }

  /** The last non-empty FN value is the name, whatever N lines say. */
  lemma {:induction false} FullNameWins(lines: seq<string>, init: Contact)
    requires LastValue(lines, "FN:").Some? && LastValue(lines, "FN:").value != ""
    ensures ParseLines(lines, init).name == LastValue(lines, "FN:").value
  {
    var front := lines[..|lines| - 1];
    var line := Strip(lines[|lines| - 1]);
    StepName(ParseLines(front, init), line);
    if !StartsWith(line, "FN:") {
      FullNameWins(front, init);
    }
  }

  /** With no FN and no N line, the name stays as it was. */
  lemma {:induction false} NameUntouched(lines: seq<string>, init: Contact)
    requires forall k :: 0 <= k < |lines| ==> !StartsWith(Strip(lines[k]), "FN:") && !StartsWith(Strip(lines[k]), "N:")
    ensures ParseLines(lines, init).name == init.name
  {
    if lines != [] {
      var front := lines[..|lines| - 1];
      assert forall k :: 0 <= k < |front| ==> front[k] == lines[k];
      NameUntouched(front, init);
      StepName(ParseLines(front, init), Strip(lines[|lines| - 1]));
    }
  }

  /** The final name is empty only when no name was read and the first
      phone's cleaned number is empty; a name read is kept. */
  lemma FinishNamesContact(c: Contact)
    ensures Finish(c).name == "" <==> c.name == "" && c.phones != [] && c.phones[0].number == ""
    ensures c.name != "" ==> Finish(c).name == c.name
    ensures c.name == "" && c.phones == [] ==> Finish(c).name == "Unknown Contact"
    ensures Finish(c).(name := c.name) == c
  {
  }

  // ---------------------------------------------------------------- calling

  predicate IsDialChar(c: char) { IsDigit(c) || c == '+' }

  /** make_phone_call: a number without any digit or '+' is refused;
      otherwise the tel: URI of the number as given is opened. */
  function CallTarget(phoneNumber: string): (r: Result<string>)
    ensures r.Ok? ==> r.value == "tel:" + phoneNumber
    ensures r.Err? ==> r.error == "Invalid phone number"
  {
    if Keep(phoneNumber, IsDialChar) == "" then Err("Invalid phone number") else Ok("tel:" + phoneNumber)
  }

  /** A number is refused exactly when it has no digit and no '+'. */
  lemma CallNeedsDialChar(phoneNumber: string)
    ensures CallTarget(phoneNumber).Err? <==> forall i :: 0 <= i < |phoneNumber| ==> !IsDialChar(phoneNumber[i])
  {
    KeepEmpty(phoneNumber, IsDialChar);
  }
}
