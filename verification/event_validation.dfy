/**
 * The validations of the `Event` model: the space must exist (`belongs_to`),
 * name, starts_at and ends_at must be present, and ends_at must be strictly
 * after starts_at when both are present. Every failing validation adds its
 * error; none stops the others. There is no overlap check.
 */
module EventValidation {
  import opened Wrappers
  import opened Text

  datatype Attribute = Space | Name | StartsAt | EndsAt

  datatype FieldError =
    | Required(attr: Attribute)                 // belongs_to: the associated record must exist
    | Blank(attr: Attribute)                    // presence: true
    | Invalid(attr: Attribute, message: string) // a custom validation's message

  const EndsAfterStartsMessage := "は開始日時より後にしてください"

  /** The attributes of an event record as assigned before saving; None is nil. */
  datatype Attrs = Attrs(
    name: Option<string>,
    description: Option<string>,
    startsAt: Option<int>,
    endsAt: Option<int>,
    spaceId: Option<int>)

  predicate NameBlank(name: Option<string>) {
    name.None? || IsBlank(name.value)
  }

  /** `ends_at_after_starts_at`: skipped when either time is nil, else fails on ends_at <= starts_at. */
  predicate RangeFails(a: Attrs) {
    a.startsAt.Some? && a.endsAt.Some? && a.endsAt.value <= a.startsAt.value
  }

  predicate SpaceMissing(a: Attrs, spaces: set<int>) {
    a.spaceId.None? || a.spaceId.value !in spaces
  }

  /** The errors `valid?` collects, in declaration order of the validations. */
  function Errors(a: Attrs, spaces: set<int>): (r: seq<FieldError>)
    ensures Required(Space) in r <==> SpaceMissing(a, spaces)
    ensures Blank(Name) in r <==> NameBlank(a.name)
    ensures Blank(StartsAt) in r <==> a.startsAt.None?
    ensures Blank(EndsAt) in r <==> a.endsAt.None?
    ensures Invalid(EndsAt, EndsAfterStartsMessage) in r <==> RangeFails(a)
    ensures forall err :: err in r ==>
      err in {Required(Space), Blank(Name), Blank(StartsAt), Blank(EndsAt), Invalid(EndsAt, EndsAfterStartsMessage)}
  {
    (if SpaceMissing(a, spaces) then [Required(Space)] else [])
    + (if NameBlank(a.name) then [Blank(Name)] else [])
    + (if a.startsAt.None? then [Blank(StartsAt)] else [])
    + (if a.endsAt.None? then [Blank(EndsAt)] else [])
    + (if RangeFails(a) then [Invalid(EndsAt, EndsAfterStartsMessage)] else [])
  }

  /** An event is valid exactly when its space exists, its name is not blank and it ends after it starts. */
  lemma ValidIff(a: Attrs, spaces: set<int>)
    ensures Errors(a, spaces) == [] <==>
      && a.spaceId.Some? && a.spaceId.value in spaces
      && a.name.Some? && !IsBlank(a.name.value)
      && a.startsAt.Some? && a.endsAt.Some? && a.startsAt.value < a.endsAt.value
  {
    if Errors(a, spaces) != [] {
      var err := Errors(a, spaces)[0];
      assert err in Errors(a, spaces);
    }
  }

  /** A missing time yields its presence error only: the range check does not run. */
  lemma MissingTimeSkipsRange(a: Attrs, spaces: set<int>)
    requires a.startsAt.None? || a.endsAt.None?
    ensures Invalid(EndsAt, EndsAfterStartsMessage) !in Errors(a, spaces)
    ensures Blank(StartsAt) in Errors(a, spaces) || Blank(EndsAt) in Errors(a, spaces)
  {
  }

  /** A name of ideographic spaces only, as a Japanese input method types them, fails the presence check. */
  lemma IdeographicNameBlank(a: Attrs, spaces: set<int>)
    requires a.name.Some? && forall i :: 0 <= i < |a.name.value| ==> a.name.value[i] == '\U{3000}'
    ensures Blank(Name) in Errors(a, spaces)
  {
  }

  /** An event record and the errors collection its validations append to. */
  class EventRecord {
    var attrs: Attrs
    var errors: seq<FieldError>

    constructor (a: Attrs)
      ensures attrs == a && errors == []
    {
      attrs := a;
      errors := [];
    }

    /** `belongs_to :space`. */
    method ValidateSpace(spaces: set<int>)
      modifies this`errors
      ensures errors == old(errors) + (if SpaceMissing(attrs, spaces) then [Required(Space)] else [])
    {
      if SpaceMissing(attrs, spaces) {
        errors := errors + [Required(Space)];
      }
    }

    /** `validates :name, :starts_at, :ends_at, presence: true`. */
    method ValidatePresence()
      modifies this`errors
      ensures errors == old(errors)
        + (if NameBlank(attrs.name) then [Blank(Name)] else [])
        + (if attrs.startsAt.None? then [Blank(StartsAt)] else [])
        + (if attrs.endsAt.None? then [Blank(EndsAt)] else [])
    {
      if NameBlank(attrs.name) {
        errors := errors + [Blank(Name)];
      }
      if attrs.startsAt.None? {
        errors := errors + [Blank(StartsAt)];
      }
      if attrs.endsAt.None? {
        errors := errors + [Blank(EndsAt)];
      }
    }

    /** `ends_at_after_starts_at`: returns early when a time is blank, else adds the ends_at error. */
    method EndsAtAfterStartsAt()
      modifies this`errors
      ensures errors == old(errors) + (if RangeFails(attrs) then [Invalid(EndsAt, EndsAfterStartsMessage)] else [])
    {
      if attrs.startsAt.None? || attrs.endsAt.None? {
        return;
      }
      if attrs.endsAt.value <= attrs.startsAt.value {
        errors := errors + [Invalid(EndsAt, EndsAfterStartsMessage)];
      }
    }

    /** `valid?`: clears the errors, runs every validation, and succeeds when none failed. */
    method IsValid(spaces: set<int>) returns (ok: bool)
      modifies this`errors
      ensures errors == Errors(attrs, spaces)
      ensures ok <==> errors == []
    {
      errors := [];
      ValidateSpace(spaces);
      ValidatePresence();
      EndsAtAfterStartsAt();
      ok := errors == [];
    }
  }
}
