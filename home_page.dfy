/**
  The state of the landing page and its three event handlers: the mobile
  menu toggle, the controlled inputs of the contact form, and the form's
  submit handler. The pure functions below are the specification of one
  handler call each; class `Page` holds the same state in fields and its
  methods are proved to perform exactly those transitions.
 */
module HomePage {
  import opened JsText
  import opened EmailPattern

  /** The `id` attributes of the three form inputs that report changes. */
  datatype FieldId = Name | Number | Email

  /** The form record `{ name, number, email }`. */
  datatype FormData = FormData(name: JsString, number: JsString, email: JsString)
  {
    function Get(id: FieldId): JsString
    {
      match id
      case Name => name
      case Number => number
      case Email => email
    }
  }

  /** `{ ...prev, [id]: value }`: the record with one field replaced. */
  function WithField(f: FormData, id: FieldId, value: JsString): (r: FormData)
    ensures r.Get(id) == value
    ensures forall other :: other != id ==> r.Get(other) == f.Get(other)
  {
    match id
    case Name => f.(name := value)
    case Number => f.(number := value)
    case Email => f.(email := value)
  }

  /** Everything the component keeps in state. */
  datatype PageState = PageState(menuOpen: bool, form: FormData, submitted: bool)

  /** The values the three `useState` calls start from. */
  function Initial(): (r: PageState)
    ensures !r.menuOpen && !r.submitted
    ensures forall id :: r.form.Get(id) == []
  {
    PageState(false, FormData([], [], []), false)
  }

  /** The menu button's click handler. */
  function ToggleMenu(st: PageState): (r: PageState)
    ensures r.menuOpen == !st.menuOpen
    ensures r.form == st.form && r.submitted == st.submitted
  {
    st.(menuOpen := !st.menuOpen)
  }

  /** `handleChange` for an input with the given id. */
  function ChangeField(st: PageState, id: FieldId, value: JsString): (r: PageState)
    ensures r.form.Get(id) == value
    ensures forall other :: other != id ==> r.form.Get(other) == st.form.Get(other)
    ensures r.menuOpen == st.menuOpen && r.submitted == st.submitted
  {
    st.(form := WithField(st.form, id, value))
  }

  /** The guard of `handleSubmit`: name truthy, e-mail truthy, e-mail passes the pattern. */
  ghost predicate CanSubmit(f: FormData)
    ensures CanSubmit(f) ==> |f.name| > 0 && |f.email| >= 5
  {
    Truthy(f.name) && Truthy(f.email) && EmailTest(f.email)
  }

  /** `handleSubmit`: raise the flag when the guard holds, otherwise do nothing. */
  ghost function SubmitForm(st: PageState): (r: PageState)
    ensures r.submitted == (st.submitted || CanSubmit(st.form))
    ensures r.menuOpen == st.menuOpen && r.form == st.form
  {
    if CanSubmit(st.form) then st.(submitted := true) else st
  }

  /** One user interaction, each handled as one atomic step. */
  datatype Event = MenuClick | Change(id: FieldId, value: JsString) | Submit

  ghost function Step(st: PageState, e: Event): PageState
  {
    match e
    case MenuClick => ToggleMenu(st)
    case Change(id, value) => ChangeField(st, id, value)
    case Submit => SubmitForm(st)
  }

  /** The state after a sequence of interactions, the last one applied last. */
  ghost function Run(st: PageState, events: seq<Event>): PageState
  {
    if events == [] then st
    else Step(Run(st, events[..|events| - 1]), events[|events| - 1])
  }

  /** How many menu clicks a sequence of interactions holds. */
  function MenuClicks(events: seq<Event>): nat
  {
    if events == [] then 0
    else MenuClicks(events[..|events| - 1]) + (if events[|events| - 1] == MenuClick then 1 else 0)
  }

  // ---------------------------------------------------------------------------
  // What the page shows

  datatype Icon = MenuIcon | CloseIcon

  /** The parts of the markup that depend on state. */
  datatype View = View(buttonIcon: Icon, mobileLinks: bool, thankYou: bool)

  /**
    The button shows the close icon while the menu is open and the menu icon
    otherwise; the mobile link panel and the thank-you message are rendered
    exactly while `menuOpen` and `formSubmitted` are set.
   */
  function Render(st: PageState): (v: View)
    ensures v.buttonIcon == CloseIcon <==> st.menuOpen
    ensures v.mobileLinks <==> st.menuOpen
    ensures v.thankYou <==> st.submitted
  {
    View(if st.menuOpen then CloseIcon else MenuIcon, st.menuOpen, st.submitted)
  }

  // ---------------------------------------------------------------------------
  // Properties of the transitions

  /** The page opens with the menu closed, an empty form and no thank-you message. */
  lemma InitialView()
    ensures forall id :: Initial().form.Get(id) == []
    ensures Render(Initial()) == View(MenuIcon, false, false)
  {
  }

  /** A click flips the menu, flips the panel and the icon with it, and changes nothing else. */
  lemma ToggleFlipsMenu(st: PageState)
    ensures ToggleMenu(st).menuOpen == !st.menuOpen
    ensures ToggleMenu(st).form == st.form && ToggleMenu(st).submitted == st.submitted
    ensures Render(ToggleMenu(st)).mobileLinks == !Render(st).mobileLinks
    ensures Render(ToggleMenu(st)).buttonIcon != Render(st).buttonIcon
    ensures ToggleMenu(ToggleMenu(st)) == st
  {
  }

  /** A change sets its own field and leaves the other fields, the menu and the flag alone. */
  lemma ChangeSetsOneField(st: PageState, id: FieldId, value: JsString)
    ensures ChangeField(st, id, value).form.Get(id) == value
    ensures forall other :: other != id ==>
      ChangeField(st, id, value).form.Get(other) == st.form.Get(other)
    ensures ChangeField(st, id, value).menuOpen == st.menuOpen
    ensures ChangeField(st, id, value).submitted == st.submitted
  {
  }

  /** Of two changes to one input only the later one counts; changes to different inputs commute. */
  lemma ChangesCompose(st: PageState, id: FieldId, id': FieldId, v: JsString, v': JsString)
    ensures ChangeField(ChangeField(st, id, v), id, v') == ChangeField(st, id, v')
    ensures id != id' ==>
      ChangeField(ChangeField(st, id, v), id', v') == ChangeField(ChangeField(st, id', v'), id, v)
  {
  }

  /**
    Submitting raises the flag exactly when the name is non-empty and the
    e-mail passes the pattern (the e-mail's own truthiness test is implied by
    the pattern); otherwise the state is left exactly as it was. The flag is
    never lowered.
   */
  lemma SubmitOutcome(st: PageState)
    ensures CanSubmit(st.form) <==> |st.form.name| > 0 && EmailTest(st.form.email)
    ensures SubmitForm(st).submitted <==> st.submitted || (|st.form.name| > 0 && EmailTest(st.form.email))
    ensures SubmitForm(st).menuOpen == st.menuOpen && SubmitForm(st).form == st.form
    ensures !CanSubmit(st.form) ==> SubmitForm(st) == st
  {
    MatchHasLengthFive(st.form.email);
  }

  /**
    The phone number plays no part in submitting: states that differ only in
    it submit alike, and editing it before or after a submit ends the same.
   */
  lemma NumberIrrelevant(st: PageState, number: JsString)
    ensures CanSubmit(ChangeField(st, Number, number).form) == CanSubmit(st.form)
    ensures SubmitForm(ChangeField(st, Number, number)) == ChangeField(SubmitForm(st), Number, number)
  {
  }

  /** No handler lowers the flag: once the thank-you message shows it keeps showing. */
  lemma {:induction false} SubmittedStays(st: PageState, events: seq<Event>)
    requires st.submitted
    ensures Run(st, events).submitted
    ensures Render(Run(st, events)).thankYou
    decreases |events|
  {
    if events != [] {
      SubmittedStays(st, events[..|events| - 1]);
    }
  }

  /**
    After a sequence of interactions the flag is up exactly when it was up
    before or some submit in the sequence met the guard in the state it was
    made in.
   */
  lemma {:induction false} SubmittedIffAcceptedSubmit(st: PageState, events: seq<Event>)
    ensures Run(st, events).submitted <==>
      st.submitted ||
      exists k :: 0 <= k < |events| && events[k] == Submit && CanSubmit(Run(st, events[..k]).form)
    decreases |events|
  {
    if events != [] {
      var n := |events| - 1;
      var init := events[..n];
      SubmittedIffAcceptedSubmit(st, init);
      assert forall k :: 0 <= k < n ==> init[k] == events[k] && init[..k] == events[..k];
      assert events[..n] == init;
      if st.submitted || exists k :: 0 <= k < n && init[k] == Submit && CanSubmit(Run(st, init[..k]).form) {
        SubmittedStays(Run(st, init), [events[n]]);
        assert [events[n]][..0] == [];
      }
    }
  }

  /**
    After a sequence of interactions the menu is open exactly when it started
    open and saw an even number of clicks, or started closed and saw an odd
    number; the mobile link panel shows exactly when the menu is open.
   */
  lemma {:induction false} MenuParity(st: PageState, events: seq<Event>)
    ensures Run(st, events).menuOpen == (st.menuOpen != (MenuClicks(events) % 2 == 1))
    ensures Render(Run(st, events)).mobileLinks == Run(st, events).menuOpen
    decreases |events|
  {
    if events != [] {
      MenuParity(st, events[..|events| - 1]);
    }
  }

  // ---------------------------------------------------------------------------
  // The component

  /** The component's state, updated in place by its handlers. */
  class Page {
    var menuOpen: bool
    var name: JsString
    var number: JsString
    var email: JsString
    var submitted: bool

    function Form(): FormData
      reads this
    {
      FormData(name, number, email)
    }

    function State(): PageState
      reads this
    {
      PageState(menuOpen, Form(), submitted)
    }

    /** The three `useState` initial values. */
    constructor ()
      ensures !menuOpen && name == [] && number == [] && email == [] && !submitted
      ensures State() == Initial()
    {
      menuOpen := false;
      name, number, email := [], [], [];
      submitted := false;
    }

    /** `setMenuOpen(!menuOpen)`. */
    method ToggleMenuClicked()
      modifies this
      ensures menuOpen == !old(menuOpen)
      ensures State() == ToggleMenu(old(State()))
    {
      menuOpen := !menuOpen;
    }

    /** `handleChange` for the input whose id is `id`. */
    method HandleChange(id: FieldId, value: JsString)
      modifies this
      ensures Form().Get(id) == value
      ensures forall other :: other != id ==> Form().Get(other) == old(Form()).Get(other)
      ensures State() == ChangeField(old(State()), id, value)
    {
      var f := WithField(Form(), id, value);
      name, number, email := f.name, f.number, f.email;
    }

    /** `handleSubmit`, with the regular expression's `test` run by `TestEmail`. */
    method HandleSubmit()
      modifies this
      ensures submitted == (old(submitted) || CanSubmit(old(Form())))
      ensures State() == SubmitForm(old(State()))
    {
      if Truthy(name) && Truthy(email) {
        var ok := TestEmail(email);
        if ok {
          submitted := true;
        }
      }
    }
  }
}
