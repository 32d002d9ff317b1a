/** The funnel's call-to-action `Button`: a router link, or an inert span while disabled. */
module Button {
  import opened Common

  datatype Kind = Bulk | Outline

  /** The component's props; an absent `disabled` is `false`. */
  datatype Props = Props(text: string, kind: Kind, link: string, disabled: bool)

  /** The utility classes the component uses. */
  datatype ClassName =
    | ButtonGradient | BulkBtn | OutlineBtn
    | PointerEventsNone | PointerEventsAuto | CursorNotAllowed | Opacity50
    | Text12 | FontBold | SmText16 | LgText13 | XlText16

  /** The class as written in `className`. */
  function ClassText(c: ClassName): string
  {
    match c
    case ButtonGradient => "button-gradient"
    case BulkBtn => "bulk-btn"
    case OutlineBtn => "outline-btn"
    case PointerEventsNone => "pointer-events-none"
    case PointerEventsAuto => "pointer-events-auto"
    case CursorNotAllowed => "cursor-not-allowed"
    case Opacity50 => "opacity-50"
    case Text12 => "text-[12px]"
    case FontBold => "font-bold"
    case SmText16 => "sm:text-[16px]"
    case LgText13 => "lg:text-[13px]"
    case XlText16 => "xl:text-[16px]"
  }

  /** What the component renders; `classes` lists the tokens of `className` in order. */
  datatype Element =
    | InertSpan(classes: seq<ClassName>, text: string, ariaDisabled: bool)
    | RouterLink(to: string, classes: seq<ClassName>, text: string)

  /** The classes chosen by `type`. */
  function BaseClasses(kind: Kind): seq<ClassName>
  {
    match kind
    case Bulk => [ButtonGradient, BulkBtn]
    case Outline => [OutlineBtn]
  }

  const DisabledClasses: seq<ClassName> :=
    [PointerEventsNone, CursorNotAllowed, Text12, FontBold, Opacity50, SmText16, LgText13, XlText16]

  const EnabledClasses: seq<ClassName> :=
    [PointerEventsAuto, Text12, FontBold, SmText16, LgText13, XlText16]

  /** The component. A disabled button is an `aria-disabled` span that cannot be clicked
      through; otherwise it is a link to exactly `link`. Both start with the classes of
      their kind and show the text. */
  function Render(p: Props): (e: Element)
    ensures e.InertSpan? <==> p.disabled
    ensures e.RouterLink? ==> e.to == p.link
    ensures e.InertSpan? ==> e.ariaDisabled
    ensures e.text == p.text
    ensures |BaseClasses(p.kind)| <= |e.classes| && e.classes[..|BaseClasses(p.kind)|] == BaseClasses(p.kind)
    ensures p.disabled ==>
      PointerEventsNone in e.classes && Opacity50 in e.classes && PointerEventsAuto !in e.classes
    ensures !p.disabled ==>
      PointerEventsAuto in e.classes && PointerEventsNone !in e.classes && Opacity50 !in e.classes
  {
    var base := BaseClasses(p.kind);
    StyleTokens(p.kind);
    if p.disabled then
      var cs := base + DisabledClasses;
      assert cs[..|base|] == base;
      InertSpan(cs, p.text, true)
    else
      var cs := base + EnabledClasses;
      assert cs[..|base|] == base;
      RouterLink(p.link, cs, p.text)
  }

  /** Where the pointer-event and opacity classes come from: only the disabled or the
      enabled suffix, never the classes of the kind. */
  lemma StyleTokens(kind: Kind)
    ensures PointerEventsNone in DisabledClasses && Opacity50 in DisabledClasses
    ensures PointerEventsAuto !in DisabledClasses
    ensures PointerEventsAuto in EnabledClasses
    ensures PointerEventsNone !in EnabledClasses && Opacity50 !in EnabledClasses
    ensures PointerEventsNone !in BaseClasses(kind) && Opacity50 !in BaseClasses(kind)
    ensures PointerEventsAuto !in BaseClasses(kind)
  {
    assert DisabledClasses[0] == PointerEventsNone && DisabledClasses[4] == Opacity50;
    assert EnabledClasses[0] == PointerEventsAuto;
  }

  /** Where activating the element navigates: nowhere for the inert span. */
  function Target(e: Element): Option<string>
  {
    match e
    case InertSpan(_, _, _) => None
    case RouterLink(to, _, _) => Some(to)
  }

  /** A disabled button has no navigation target; an enabled one goes to exactly its link. */
  lemma TargetOfButton(p: Props)
    ensures Target(Render(p)) == if p.disabled then None else Some(p.link)
  {
  }
}
