# Trivertise landing page: state and contact-form check

The repository renders one React component, `HomePage`: a static marketing
page with a mobile navigation menu and a contact form. This project models
the part of it that has behaviour:

- the component state: `menuOpen`, the form record `{ name, number, email }`
  and `formSubmitted`, with their initial values;
- its three handlers, each taken as one atomic step: the menu button's
  click, `handleChange` (which replaces one field of the record), and
  `handleSubmit` (which raises the submitted flag only when the name is
  non-empty and the e-mail passes `/\S+@\S+\.\S+/.test`);
- the parts of the markup that depend on state: the button icon, the mobile
  link panel and the thank-you message;
- the e-mail pattern itself, over UTF-16 code units with `\s` as ECMAScript
  defines it (WhiteSpace and LineTerminator, sections 12.2 and 12.3 of
  ECMA-262).

Files:

- `js_text.dfy` (module `JsText`): code units, `\s`, truthiness of a string.
- `email_pattern.dfy` (module `EmailPattern`): the language of the pattern,
  the unanchored `test` as "some substring is in that language", a
  characterisation by the positions of `@` and `.`, and `TestEmail`, a
  single-pass method proved to decide it.
- `home_page.dfy` (module `HomePage`): the state as a datatype, one pure
  function per handler, the view, lemmas about single steps and about
  whole sequences of interactions, and the class `Page` whose fields are the
  component's state and whose methods are proved to perform exactly the
  transitions the functions describe.

## Model

| member | source | states |
|---|---|---|
| `JsText.IsRegExpSpace` | HomePage.jsx:17 | the `\s` set of the pattern: WhiteSpace or LineTerminator per ECMA-262; among ASCII units exactly TAB, LF, VT, FF, CR and space; never `@` or `.` |
| `EmailPattern.InPattern` | HomePage.jsx:17 | the language of `\S+@\S+\.\S+` matched by a whole string; every member has at least five units and begins and ends with a non-space unit |
| `EmailPattern.EmailTest` | HomePage.jsx:17 | `.test` of the unanchored pattern: some substring is in the pattern's language; an accepted string has at least five units |
| `EmailPattern.MatchIffAround` | HomePage.jsx:17 | the pattern test succeeds iff there are indices i, j with a non-space unit at i-1, `@` at i, j >= i+2, only non-space units strictly between, `.` at j and a non-space unit at j+1 |
| `EmailPattern.MatchHasLengthFive` | HomePage.jsx:17 | every accepted string has at least five code units, so it is truthy and the separate `formData.email &&` test is redundant |
| `EmailPattern.MatchExtends` | HomePage.jsx:17 | the pattern is unanchored: if s is accepted, so is p + s + q for any p and q |
| `EmailPattern.NoAtNoMatch` | HomePage.jsx:17 | a string without `@` is rejected |
| `EmailPattern.NoDotAfterAtNoMatch` | HomePage.jsx:17 | a string with no `.` after any `@` is rejected |
| `EmailPattern.SpaceFreeMatch` | HomePage.jsx:17 | on a string without `\s` units, acceptance is exactly: an `@` not in first position, and a `.` at least two units after it and not in last position |
| `EmailPattern.AcceptedExamples` | HomePage.jsx:17 | `a@b.c`, `a@@b..c` and `a@..c` are accepted (`\S` matches `@` and `.` too) |
| `EmailPattern.AcceptedInsideText` | HomePage.jsx:17 | a string with spaces around an address is accepted, since only a substring must match |
| `EmailPattern.RejectedExamples` | HomePage.jsx:17 | `@b.c`, `a@.c`, `a @b.c` and `a@b. c` are rejected |
| `EmailPattern.TestEmail` | HomePage.jsx:17 | the single-pass scan returns true exactly when the pattern test succeeds |
| `HomePage.WithField` | HomePage.jsx:12 | `{ ...prev, [id]: value }` sets field `id` to `value` and leaves the other two fields as they were |
| `HomePage.Initial` | HomePage.jsx:6-8 | the `useState` initial values: menu closed, flag down, all three fields empty |
| `HomePage.ToggleMenu` | HomePage.jsx:33 | the click handler's transition: `menuOpen` negated, form and flag unchanged |
| `HomePage.ChangeField` | HomePage.jsx:10-13 | the change handler's transition: field `id` set to `value`, the other two fields, the menu and the flag unchanged |
| `HomePage.CanSubmit` | HomePage.jsx:17 | the submit guard: name truthy, e-mail truthy, e-mail passes the pattern; when it holds the name is non-empty and the e-mail has at least five units |
| `HomePage.SubmitForm` | HomePage.jsx:15-20 | the submit handler's transition: the flag becomes the old flag or the guard's outcome, menu and form unchanged |
| `HomePage.Render` | HomePage.jsx:34-139 | the state-dependent markup: close icon iff the menu is open (line 34), mobile link panel iff the menu is open (lines 38-44), thank-you message iff the flag is up (lines 137-139) |
| `HomePage.InitialView` | HomePage.jsx:6-8 | initially all three fields are empty, the menu is closed (menu icon, no mobile panel) and no thank-you message shows |
| `HomePage.ToggleFlipsMenu` | HomePage.jsx:33-44 | a click negates `menuOpen`, flips the mobile panel and the icon, changes nothing else, and two clicks restore the state |
| `HomePage.ChangeSetsOneField` | HomePage.jsx:10-13 | a change sets its own field and leaves the other two fields, `menuOpen` and `formSubmitted` unchanged |
| `HomePage.ChangesCompose` | HomePage.jsx:10-13 | the later of two changes to one input wins; changes to different inputs commute |
| `HomePage.SubmitOutcome` | HomePage.jsx:15-20 | after submit the flag is up iff it was up or the name is non-empty and the e-mail passes the pattern; menu and form are untouched, and a failing guard leaves the whole state unchanged |
| `HomePage.NumberIrrelevant` | HomePage.jsx:15-20 | the phone number never affects the submit guard, and editing it commutes with submitting |
| `HomePage.SubmittedStays` | HomePage.jsx:15-20 | no sequence of clicks, changes and submits lowers the flag, so the thank-you message keeps showing once shown |
| `HomePage.SubmittedIffAcceptedSubmit` | HomePage.jsx:15-20 | after any sequence of interactions the flag is up iff it was up before or some submit in the sequence met the guard in the state it was made in |
| `HomePage.MenuParity` | HomePage.jsx:33-44 | after any sequence of interactions the menu is open iff its start state differs from the parity of the number of clicks; the mobile panel shows exactly then |
| `HomePage.Page.constructor` | HomePage.jsx:6-8 | the three `useState` initial values: menu closed, empty name, number and e-mail, flag down |
| `HomePage.Page.ToggleMenuClicked` | HomePage.jsx:33 | the click handler negates `menuOpen` and leaves the rest of the state unchanged |
| `HomePage.Page.HandleChange` | HomePage.jsx:10-13 | the change handler sets exactly the field named by the input's id, and nothing else of the state |
| `HomePage.Page.HandleSubmit` | HomePage.jsx:15-20 | the submit handler sets the flag to its old value or the guard's outcome, and changes nothing else |

## Left out

- Markup, styling, anchor links, the `mailto:` link and the icons' drawing: presentation without behaviour; only which icon, whether the mobile panel and whether the thank-you message show are modelled.
- The list of services (HomePage.jsx:70-99): static content rendered with `.map`.
- The footer year (HomePage.jsx:143): it reads the clock.
- `e.preventDefault()`, event objects and React's scheduling and batching of state updates: each handler is one atomic transition on the state it reads.
- The browser's own constraint validation from the `required` and `type="email"` attributes: it runs in the browser before `onSubmit` and is not part of the component's code.
- The browser's sanitising of the value of a `type="email"` input (it strips line breaks and leading and trailing ASCII whitespace before `handleChange` reads `e.target.value`): a change event may carry any string, which covers every value the browser can deliver, so every property proved here also holds for the sanitised values.
- `HomePage.Page.HandleChange`: only the three ids of the form's inputs are modelled; an event from an input with another id, which would add a new key to the record, cannot occur on this page.
- The regular-expression engine: only this one fixed pattern is modelled, and only `test`'s boolean result, not the order in which a backtracking engine tries positions or which substring it would report.
