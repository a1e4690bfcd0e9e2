/**
 * The admin form of `create-raffle/page.tsx`: editing a field (the name also
 * fills in a slug derived from it), and submitting the form, which needs the
 * administrator's token, converts the dates and posts the raffle. Browser
 * storage, the date conversion and the server's answer are passed in.
 */
module CreateRafflePage {
  import opened Wrappers
  import Text

  /** The inputs of the form, each named as the state property it edits. */
  datatype FormField = Name | Slug | Description | ImageUrl | TicketPrice | TotalTickets | StartDate | EndDate

  /** `formData`: every input holds the text typed into it. */
  datatype RaffleForm = RaffleForm(
    name: string,
    slug: string,
    description: string,
    imageUrl: string,
    ticketPrice: string,
    totalTickets: string,
    startDate: string,
    endDate: string)

  const EmptyForm: RaffleForm := RaffleForm("", "", "", "", "", "", "", "")

  /** `formData[field]`. */
  function Get(form: RaffleForm, field: FormField): string
  {
    match field
    case Name => form.name
    case Slug => form.slug
    case Description => form.description
    case ImageUrl => form.imageUrl
    case TicketPrice => form.ticketPrice
    case TotalTickets => form.totalTickets
    case StartDate => form.startDate
    case EndDate => form.endDate
  }

  /** `{ ...form, [field]: value }`: that field holds the value, every other field is kept. */
  function Set(form: RaffleForm, field: FormField, value: string): (r: RaffleForm)
    ensures Get(r, field) == value
    ensures forall g :: g != field ==> Get(r, g) == Get(form, g)
  {
    match field
    case Name => form.(name := value)
    case Slug => form.(slug := value)
    case Description => form.(description := value)
    case ImageUrl => form.(imageUrl := value)
    case TicketPrice => form.(ticketPrice := value)
    case TotalTickets => form.(totalTickets := value)
    case StartDate => form.(startDate := value)
    case EndDate => form.(endDate := value)
  }

  /** A character the slug keeps: a character of `\w` or a hyphen. */
  predicate IsSlugChar(c: char) { Text.IsWordChar(c) || c == '-' }

  /** A character a derived slug can hold: a small letter, a digit, `_` or `-`. */
  predicate IsSlugOutput(c: char) { Text.IsLower(c) || Text.IsDigit(c) || c == '_' || c == '-' }

  /** `s.replace(/[^\w-]+/g, "")`: the slug characters of `s`, in order. */
  function KeepSlugChars(s: string): (r: string)
    ensures |r| <= |s|
    ensures forall c :: c in r <==> c in s && IsSlugChar(c)
  {
    if s == [] then [] else (if IsSlugChar(s[0]) then [s[0]] else []) + KeepSlugChars(s[1..])
  }

  /** `KeepSlugChars` is a filter: it works piece by piece, and a single character stays exactly when it is a slug character. */
  lemma {:induction false} KeepSlugCharsAppend(a: string, b: string)
    ensures KeepSlugChars(a + b) == KeepSlugChars(a) + KeepSlugChars(b)
  {
    if a == [] {
      assert a + b == b && KeepSlugChars(a) == [];
    } else {
      var h := if IsSlugChar(a[0]) then [a[0]] else [];
      calc {
        KeepSlugChars(a + b);
        == { assert (a + b)[1..] == a[1..] + b && (a + b)[0] == a[0]; }
        h + KeepSlugChars(a[1..] + b);
        == { KeepSlugCharsAppend(a[1..], b); }
        h + (KeepSlugChars(a[1..]) + KeepSlugChars(b));
        ==
        (h + KeepSlugChars(a[1..])) + KeepSlugChars(b);
        ==
        KeepSlugChars(a) + KeepSlugChars(b);
      }
    }
  }

  /** A single character survives `KeepSlugChars` exactly when it is a slug character. */
  lemma KeepSlugCharsSingle(c: char)
    ensures KeepSlugChars([c]) == if IsSlugChar(c) then [c] else []
  {
    assert [c][1..] == [];
  }

  /**
   * The slug the form derives from the name: lower-cased, spaces made
   * hyphens, everything else outside `[A-Za-z0-9_-]` deleted. It is made of
   * small letters, digits, `_` and `-` only, and is never longer than the
   * name.
   */
  function FormSlug(name: string): (r: string)
    ensures forall i :: 0 <= i < |r| ==> IsSlugOutput(r[i])
    ensures ' ' !in r
    ensures |r| <= |name|
  {
    var r := KeepSlugChars(Text.ReplaceAll(Text.Lower(name), ' ', '-'));
    assert forall i :: 0 <= i < |r| ==> IsSlugOutput(r[i]) by {
      forall i | 0 <= i < |r| ensures IsSlugOutput(r[i]) {
        assert r[i] in r;
      }
    }
    r
  }

  /**
   * The derivation character by character: the slug of a concatenation is
   * the concatenation of the slugs, a space gives `-`, and any other
   * character gives its lower-case form when that is a slug character and
   * nothing otherwise.
   */
  lemma FormSlugAppend(a: string, b: string)
    ensures FormSlug(a + b) == FormSlug(a) + FormSlug(b)
    ensures |a| == 1 && a[0] == ' ' ==> FormSlug(a) == "-"
    ensures |a| == 1 && a[0] != ' ' ==>
      FormSlug(a) == (if IsSlugChar(Text.LowerChar(a[0])) then [Text.LowerChar(a[0])] else [])
  {
    Text.LowerAppend(a, b);
    Text.ReplaceAllAppend(Text.Lower(a), Text.Lower(b), ' ', '-');
    KeepSlugCharsAppend(Text.ReplaceAll(Text.Lower(a), ' ', '-'), Text.ReplaceAll(Text.Lower(b), ' ', '-'));
    if |a| == 1 {
      var m := Text.ReplaceAll(Text.Lower(a), ' ', '-');
      assert m == [if Text.LowerChar(a[0]) == ' ' then '-' else Text.LowerChar(a[0])];
      KeepSlugCharsSingle(m[0]);
      assert m == [m[0]];
    }
  }

  /** A string made of slug output characters is kept whole by each step of the derivation. */
  lemma {:induction false} SlugOutputFixed(s: string)
    requires forall i :: 0 <= i < |s| ==> IsSlugOutput(s[i])
    ensures Text.Lower(s) == s
    ensures Text.ReplaceAll(s, ' ', '-') == s
    ensures KeepSlugChars(s) == s
  {
    if s != [] {
      SlugOutputFixed(s[1..]);
      assert [s[0]] + s[1..] == s;
    }
  }

  /** Deriving a slug from a slug gives it back. */
  lemma FormSlugIdempotent(name: string)
    ensures FormSlug(FormSlug(name)) == FormSlug(name)
  {
    SlugOutputFixed(FormSlug(name));
  }

  /** A name of small letters, digits and spaces loses nothing: its slug is the name with hyphens for spaces. */
  lemma {:induction false} PlainNameSlug(name: string)
    requires forall i :: 0 <= i < |name| ==> Text.IsLower(name[i]) || Text.IsDigit(name[i]) || name[i] == ' '
    ensures FormSlug(name) == Text.ReplaceAll(name, ' ', '-')
  {
    var s := Text.ReplaceAll(name, ' ', '-');
    assert forall i :: 0 <= i < |s| ==> IsSlugOutput(s[i]);
    SlugOutputFixed(s);
    assert Text.Lower(name) == name by {
      forall i | 0 <= i < |name| ensures Text.Lower(name)[i] == name[i] {
      }
    }
  }

  /** What the form posts: the fields with the dates in ISO form, and the token it sends. */
  datatype Payload = Payload(form: RaffleForm, token: string)

  /** How the post ends: created, refused with the body's message if it has one, or failed with the error's own message. */
  datatype SubmitResponse = Created | Rejected(message: Option<string>) | Failed(error: string)

  /** The message a date that does not parse throws from `toISOString`. */
  const InvalidDate: string := "Invalid time value"

  class CreateRaffleForm {
    var form: RaffleForm
    var loading: bool
    var error: string
    /** Where the router was sent, if anywhere. */
    var redirect: Option<string>

    constructor ()
      ensures form == EmptyForm && !loading && error == [] && redirect.None?
    {
      form, loading, error, redirect := EmptyForm, false, [], None;
    }

    /** `handleChange`: the name also sets the slug derived from it; any other input sets only its own field. */
    method HandleChange(field: FormField, value: string)
      modifies this
      ensures field == Name ==> form == old(form).(name := value, slug := FormSlug(value))
      ensures field != Name ==> form == Set(old(form), field, value)
      ensures loading == old(loading) && error == old(error) && redirect == old(redirect)
    {
      if field == Name {
        var slug := FormSlug(value);
        form := form.(name := value, slug := slug);
      } else {
        form := Set(form, field, value);
      }
    }

    /**
     * `handleSubmit`. `token` is the stored administrator token; `isoDate`
     * converts an input date to ISO form, `None` when it does not parse.
     * Without a token the page goes to `/login` and posts nothing; a date
     * that does not parse shows its error and posts nothing; otherwise the
     * form is posted and its answer decides between the success alert with
     * `/admin` and the error shown on the form. The form never changes.
     */
    method HandleSubmit(token: Option<string>, isoDate: string -> Option<string>, response: SubmitResponse)
      returns (request: Option<Payload>, alert: Option<string>)
      modifies this
      ensures form == old(form) && !loading
      ensures token.None? || token.value == [] ==>
        && request.None? && alert.None? && error == [] && redirect == Some("/login")
      ensures (token.Some? && token.value != []) && (isoDate(form.startDate).None? || isoDate(form.endDate).None?) ==>
        && request.None? && alert.None? && error == InvalidDate && redirect == old(redirect)
      ensures (token.Some? && token.value != []) && isoDate(form.startDate).Some? && isoDate(form.endDate).Some? ==>
        && request == Some(Payload(form.(startDate := isoDate(form.startDate).value, endDate := isoDate(form.endDate).value), token.value))
        && (response.Created? ==> alert == Some("¡Rifa creada con éxito!") && error == [] && redirect == Some("/admin"))
        && (response.Rejected? ==>
              && alert.None? && redirect == old(redirect)
              && error == if response.message.Some? && response.message.value != [] then response.message.value else "Error al crear la rifa")
        && (response.Failed? ==> alert.None? && redirect == old(redirect) && error == response.error)
    {
      loading := true;
      error := [];
      request, alert := None, None;
      if token.None? || token.value == [] {
        redirect := Some("/login");
        loading := false;
        return;
      }
      var start := isoDate(form.startDate);
      var end := isoDate(form.endDate);
      if start.None? || end.None? {
        error := InvalidDate;
        loading := false;
        return;
      }
      request := Some(Payload(form.(startDate := start.value, endDate := end.value), token.value));
      match response {
        case Created =>
          alert := Some("¡Rifa creada con éxito!");
          redirect := Some("/admin");
        case Rejected(m) =>
          error := if m.Some? && m.value != [] then m.value else "Error al crear la rifa";
        case Failed(e) =>
          error := e;
      }
      loading := false;
    }
  }
}
