/** The public application form: its state updaters (text inputs and the
    availability checkboxes), the reset after a successful submit, and the
    JSON body it posts to the applications route. */
module ApplicationSection {

  import opened Common
  import Js
  import Text
  import ApplicationsRoute

  datatype FormData = FormData(
    charName: string,
    charClass: string,
    charSpec: string,
    ilvl: string,
    rio: string,
    experience: string,
    motivation: string,
    availability: seq<string>,
    discord: string)

  /** The form as first shown and after a successful submit. */
  const Empty := FormData("", "", "", "", "", "", "", [], "")

  /** The `name` attribute of a text input, select or text area. */
  datatype TextField = CharName | CharClass | CharSpec | Ilvl | Rio | Experience | Motivation | Discord

  /** `handleInputChange` (lines 51-54): `{ ...prev, [name]: value }`. */
  function SetText(f: FormData, field: TextField, value: string): (g: FormData)
    ensures g.availability == f.availability
    ensures field == CharName ==> g == f.(charName := value)
    ensures field == CharClass ==> g == f.(charClass := value)
    ensures field == CharSpec ==> g == f.(charSpec := value)
    ensures field == Ilvl ==> g == f.(ilvl := value)
    ensures field == Rio ==> g == f.(rio := value)
    ensures field == Experience ==> g == f.(experience := value)
    ensures field == Motivation ==> g == f.(motivation := value)
    ensures field == Discord ==> g == f.(discord := value)
  {
    match field
    case CharName => f.(charName := value)
    case CharClass => f.(charClass := value)
    case CharSpec => f.(charSpec := value)
    case Ilvl => f.(ilvl := value)
    case Rio => f.(rio := value)
    case Experience => f.(experience := value)
    case Motivation => f.(motivation := value)
    case Discord => f.(discord := value)
  }

  function Other(value: string): string -> bool {
    (item: string) => item != value
  }

  /** `handleCheckboxChange` (lines 56-64): checking appends the box's value;
      unchecking removes every occurrence of it. */
  function Toggle(f: FormData, value: string, checked: bool): (g: FormData)
    ensures g == f.(availability := g.availability)
    ensures checked ==> g.availability == f.availability + [value]
    ensures !checked ==> value !in g.availability
    ensures !checked ==> g.availability == Filter(f.availability, Other(value))
  {
    if checked then f.(availability := f.availability + [value])
    else
      var kept := Filter(f.availability, Other(value));
      assert forall i :: 0 <= i < |kept| ==> Other(value)(kept[i]);
      f.(availability := kept)
  }

  /** Unchecking keeps every other day, in order, as often as it was there. */
  lemma UncheckKeepsOthers(f: FormData, value: string)
    ensures var kept := Toggle(f, value, false).availability;
      && multiset(kept) <= multiset(f.availability)
      && forall d :: d != value ==> multiset(kept)[d] == multiset(f.availability)[d]
  {
    OthersKept(f.availability, value);
  }

  lemma {:induction false} OthersKept(days: seq<string>, value: string)
    ensures forall d :: d != value ==> multiset(Filter(days, Other(value)))[d] == multiset(days)[d]
  {
    if days != [] {
      OthersKept(days[1..], value);
      assert days == [days[0]] + days[1..];
    }
  }

  /** Checking a box that was not checked and unchecking it again gives
      the form back. */
  lemma CheckUncheckRestores(f: FormData, value: string)
    requires value !in f.availability
    ensures Toggle(Toggle(f, value, true), value, false) == f
  {
    var days := f.availability;
    FilterAppend(days, [value], Other(value));
    FilterAll(days, Other(value));
  }

  /** `handleSubmit` (lines 66-99): after an OK response the form is reset
      and the thank-you view shown; otherwise the form is kept. */
  function AfterSubmit(f: FormData, ok: bool): (r: (FormData, bool))
    ensures ok ==> r == (Empty, true)
    ensures !ok ==> r == (f, false)
  {
    if ok then (Empty, true) else (f, false)
  }

  /** The JSON body posted, as the applications route reads it. */
  function Body(f: FormData): (b: ApplicationsRoute.Body)
    ensures b.availability == Js.Arr(Js.Strs(f.availability))
  {
    ApplicationsRoute.Body(
      Js.Str(f.charName), Js.Str(f.charClass), Js.Str(f.charSpec), Js.Str(f.ilvl), Js.Str(f.rio),
      Js.Str(f.experience), Js.Str(f.motivation), Js.Arr(Js.Strs(f.availability)), Js.Str(f.discord))
  }

  /** The route accepts the form iff every text field but rio is filled in,
      and it stores the checked days joined with ','. An empty form is
      refused. */
  lemma RouteAcceptsFilledForm(f: FormData)
    ensures ApplicationsRoute.Complete(Body(f)) <==>
      f.charName != "" && f.charClass != "" && f.charSpec != "" && f.ilvl != ""
      && f.experience != "" && f.motivation != "" && f.discord != ""
    ensures ApplicationsRoute.ToRecord(Body(f)).availability == Js.Str(Text.Join(f.availability, ","))
    ensures !ApplicationsRoute.Complete(Body(Empty))
  {
    Js.JoinPiecesStrings(f.availability);
  }
}
