# ByteFramework components and page registry in Dafny

ByteFramework serves web pages from an ESP32. A page is built from UI
components. Each component turns itself into HTML with `toHTML()`, and
`PageService` maps URL paths to pages. This project models:

- the component hierarchy of `src/core/components`:
  - the base `Component`, which holds a tag, an id and a CSS class and
    renders itself through a template method;
  - `Button` and `Label`, which fill the template's content;
  - `Checkbox` and `InputComponent`, which replace the template with a
    self-closing `<input …>`;
  - `TextAreaComponent`, which always writes `rows` and `cols`.
- the path→page map of `src/service/PageService.h`.

How it is laid out:

- `Markup` is a reference model of the markup the components write. An
  element has a tag, a list of attributes (` name="value"` or a bare
  ` name`) and either a body followed by `</tag>` or nothing at all
  (self-closing). The module has a serializer and a parser. `ParseRoundTrip`
  proves that the parser recovers every element whose names are names and
  whose values hold no double quote.
- `ComponentMarkup`, `CheckboxMarkup`, `InputMarkup` and `TextAreaMarkup`
  each write their `toHTML` as the same string concatenation the C++ does:
  - the same pieces;
  - the same conditions (`length() > 0`, `!isEmpty()`);
  - the same order.

  Each module proves three things about its concatenation:
  - it is the serialization of a structured view;
  - the parser reads it back as that view;
  - the attribute names and values in that view are exactly as the source
    states (which ones are present, in which order, with which values).
- `Decimal` models the Arduino `String(int)` conversion used for `rows` and
  `cols`: an optional `-` and then decimal digits. It proves that the text
  reads back as the same integer.
- `Components.Component` is one class for the whole hierarchy:
  - the base fields `tag`, `id` and `cssClass`;
  - a `variant` that holds what the subclass adds.

  Each named constructor is one subclass constructor, with the same default
  arguments. The setters are `modifies this` methods that change exactly the
  field they name. `ToHTML` dispatches the way the virtual `toHTML` does.
- `PageRegistry.PageService` is an object holding the class statics `pages`
  and `server`. Every HTTP route that `addPage` installs is recorded in a ghost
  list of (server, path, page) triples.

Where comments in the source and the code disagree, the model follows the
code:

- `setTag` is documented as validating the tag, but it assigns any string.
  `Component.SetTag` has no precondition.
- `Checkbox`, `InputComponent` and `TextAreaComponent` write the fixed tag
  names `input` and `textarea` and never read the tag field. So `SetTag`
  leaves their markup unchanged.
- `src/main.cpp:10` calls `PageService::addPage` without first calling
  `PageService::begin`. At that point `server` is still null and `addPage`
  dereferences it. `PageService.AddPage` therefore requires a server;
  `examples/SimplePage/SimplePage.cpp:23` calls `begin` first, as required.
- `new Button("submit", "Click me!")` makes `"submit"` the label and
  `"Click me!"` the id, because the label is the first parameter
  (`src/core/components/Button.h:15`). `Components.SubmitButton` states the
  markup this produces.

## Model

| member | source | states |
|---|---|---|
| Decimal.IntToString | src/core/components/TextArea.h:31 | `String(int)` text is non-empty, all digits apart from a leading `-`, and starts with `-` exactly for negative numbers |
| Decimal.NatToString | src/core/components/TextArea.h:31 | the digits of a natural number are decimal digits, with no leading zero unless the number is 0 |
| Decimal.IntToStringRoundTrip | src/core/components/TextArea.h:31 | the decimal text of every integer parses back as that integer |
| Decimal.IntToStringInjective | src/core/components/TextArea.h:31 | different rows or cols values are written as different text |
| Markup.ParseRoundTrip | src/core/components/Component.h:82-88 | an element whose tag and attribute names are names and whose values hold no `"` parses back from its text as that element |
| Markup.SerializeInjective | src/core/components/Component.h:82-88 | two such elements with the same text are the same element |
| Markup.QuoteInValueForgesAttribute | src/core/components/Component.h:83-84 | values are not escaped: a value that holds `" name="` produces the same text as a separate extra attribute |
| ComponentMarkup.ToHTML | src/core/components/Component.h:80-89 | the template output starts with `<` and the tag, and ends with the content followed by `</tag>` |
| ComponentMarkup.ToHTMLIsSerialization | src/core/components/Component.h:80-89 | the template output is `<tag`, then the optional id and class, `>`, the content and `</tag>`, with the same tag in both places |
| ComponentMarkup.ToHTMLReadsBack | src/core/components/Component.h:82-88 | when the tag is a name (non-empty, no space, `=`, `"` or `>`) and the id and class hold no `"`, the template output parses back as an element with that tag, exactly the id/class attributes and exactly the content as body |
| ComponentMarkup.BaseAttrsMeaning | src/core/components/Component.h:83-84 | ` id` is present iff the id is non-empty and ` class` iff the class is non-empty; id comes before class; both carry their field verbatim |
| ComponentMarkup.DefaultMarkup | src/core/components/Component.h:40-41 | with the default tag `div` and empty id and class, the output is `<div>` + content + `</div>` |
| CheckboxMarkup.ToHTML | src/core/components/Checkbox.h:25-32 | the checkbox text starts with `<input type="checkbox"` and ends with ` checked>` when checked and with `">` otherwise |
| CheckboxMarkup.ToHTMLIsSerialization | src/core/components/Checkbox.h:25-32 | the checkbox text is the serialization of a self-closing `input` element with no body and no closing tag |
| CheckboxMarkup.ToHTMLReadsBack | src/core/components/Checkbox.h:26-31 | when the id and class hold no `"`, the checkbox text parses back as that `input` element |
| CheckboxMarkup.AttrsOrder | src/core/components/Checkbox.h:26-29 | `type` comes first; id and class appear only when non-empty, id before class, both before `checked` |
| CheckboxMarkup.CheckedPresent | src/core/components/Checkbox.h:29 | the bare `checked` attribute is present iff the box is checked |
| CheckboxMarkup.AttrsValues | src/core/components/Checkbox.h:26-28 | `type` is `checkbox`; id and class carry their fields verbatim |
| CheckboxMarkup.CheckedDetermined | src/core/components/Checkbox.h:29 | the markup determines the checked state |
| InputMarkup.ToHTML | src/core/components/Input.h:29-38 | the input text starts with `<input type="` followed by the type and `"`, and ends with `>` |
| InputMarkup.ToHTMLIsSerialization | src/core/components/Input.h:29-38 | the input text is the serialization of a self-closing `input` element |
| InputMarkup.ToHTMLReadsBack | src/core/components/Input.h:30-37 | the input text parses back as that element when no field holds `"` |
| InputMarkup.AttrsOrder | src/core/components/Input.h:31-35 | `type` always comes first; id, class, placeholder and value follow in that order, each only when non-empty |
| InputMarkup.AttrsValues | src/core/components/Input.h:31-35 | `type` carries the type even when it is empty; the other four carry their fields verbatim and are absent when empty |
| InputMarkup.PlaceholderOnly | src/core/components/Input.h:34 | changing the placeholder leaves every other attribute and their order unchanged |
| InputMarkup.DefaultMarkup | src/core/components/Input.h:17-18 | a text input with no class, placeholder or value writes `<input type="text"`, the optional id and `>` |
| TextAreaMarkup.ToHTML | src/core/components/TextArea.h:27-36 | the text-area text starts with `<textarea` and ends with the value followed by `</textarea>` |
| TextAreaMarkup.ToHTMLIsSerialization | src/core/components/TextArea.h:27-36 | the text-area text is the serialization of a `textarea` element whose body is the value |
| TextAreaMarkup.ToHTMLReadsBack | src/core/components/TextArea.h:28-34 | when the id and class hold no `"`, the text parses back as a `textarea` element whose body is exactly the value, whatever the value holds |
| TextAreaMarkup.AttrsOrder | src/core/components/TextArea.h:29-31 | id and class appear only when non-empty, id first; `rows` and `cols` are always present, last |
| TextAreaMarkup.AttrsValues | src/core/components/TextArea.h:29-31 | id and class carry their fields; `rows` and `cols` carry the decimal text, which parses back as the numbers |
| TextAreaMarkup.DefaultMarkup | src/core/components/TextArea.h:16-17 | with the default 4 rows and 40 cols, no class and no value, the markup is `<textarea`, the optional id, ` rows="4" cols="40"></textarea>` |
| Components.Component.Button | src/core/components/Button.h:15-16 | tag `button`; the first argument is the label, the id and class default to empty |
| Components.Component.Label | src/core/components/Label.h:15-16 | tag `p`; the first argument is the text, the id and class default to empty |
| Components.Component.Checkbox | src/core/components/Checkbox.h:15-16 | tag `input`; unchecked by default |
| Components.Component.Input | src/core/components/Input.h:17-18 | tag `input`; type `text`, placeholder and class empty by default; the value starts empty |
| Components.Component.TextArea | src/core/components/TextArea.h:16-17 | tag `textarea`; 4 rows and 40 cols by default; the value starts empty |
| Components.Component.SetId | src/core/components/Component.h:52 | only the id changes, and `getId` returns the new id |
| Components.Component.SetClass | src/core/components/Component.h:61 | only the class changes, and `getClass` returns the new class |
| Components.Component.SetTag | src/core/components/Component.h:71 | only the tag changes, any string is accepted, and the markup of checkbox, input and text area stays the same |
| Components.Component.ContentHTML | src/core/components/Button.h:20-22 | `getContentHTML()` is the label for a button, the text for a label (Label.h:20-22), empty for a checkbox and an input (Checkbox.h:21-23, Input.h:25-27), and the value for a text area (TextArea.h:22-25) |
| Components.Component.ToHTML | src/core/components/Component.h:80-89 | the virtual `toHTML`: buttons and labels write `<` + tag, then the content followed by `</tag>`; checkboxes write `<input type="checkbox"` first and end with ` checked>` exactly when checked (with `">` otherwise); inputs write `<input type="` + type + `"` first and end with `>`; text areas write `<textarea`, then the value followed by `</textarea>` |
| Components.Component.ToHTMLReadsBack | src/core/components/Component.h:80-89 | when the component is parsable (the id, class and input fields hold no `"`, and the tag of a button or label is a name), its markup parses back as the element its fields describe |
| Components.Component.TemplateShape | src/core/components/Component.h:82-88 | buttons and labels write the opening tag with attributes, exactly `getContentHTML()`, and a closing tag with the same tag |
| Components.Component.SelfClosing | src/core/components/Checkbox.h:21-32 | checkboxes and inputs (Input.h:25-38) write a self-closing `input` element that ends with `>`, and their content is empty |
| Components.Component.SetLabel | src/core/components/Button.h:18 | the content becomes the new label; tag, id and class stay |
| Components.Component.SetText | src/core/components/Label.h:18 | the content becomes the new text; tag, id and class stay |
| Components.Component.SetChecked | src/core/components/Checkbox.h:18-19 | `isChecked` returns the new state and ` checked` is present iff it is set; the base fields stay |
| Components.Component.SetValue | src/core/components/Input.h:20-21 | `getValue` returns the new value; for a text area it is also the content; nothing else changes |
| Components.Component.SetPlaceholder | src/core/components/Input.h:23 | only the placeholder attribute of the markup changes, and it carries the new placeholder or is absent when it is empty |
| Components.ToggleAndRestore | src/core/components/Checkbox.h:18-19 | setting the checked state away and back restores the original markup and checked state, and leaves the tag, id and class unchanged |
| Components.DefaultButton | src/core/components/Button.h:15-16 | a button built from a label alone renders as `<button>` + label + `</button>` |
| Components.DefaultLabel | src/core/components/Label.h:15-16 | a label built from a text alone renders as `<p>` + text + `</p>` |
| Components.ButtonClosing | src/core/components/Component.h:87 | a button's markup always ends with `</button>` |
| Components.SubmitButton | examples/SimplePage/SimplePage.cpp:32 | `Button("submit", "Click me!")` renders as `<button id="Click me!">submit</button>` |
| Components.FreshCheckbox | src/core/components/Checkbox.h:15-16 | a fresh checkbox renders without ` checked` |
| Components.FreshInput | src/core/components/Input.h:17-18 | a fresh input renders with type `text` and no `value` attribute |
| Components.FreshTextArea | src/core/components/TextArea.h:16-17 | a fresh text area renders as 4 rows by 40 cols with an empty body |
| PageRegistry.PageService.constructor | src/service/PageService.cpp:8-11 | the registry starts empty, with no server and no routes |
| PageRegistry.PageService.Begin | src/service/PageService.h:38-41 | `begin` stores the server and leaves the pages and routes alone |
| PageRegistry.PageService.AddPage | src/service/PageService.h:50-67 | once `begin` has set a server: the path maps to the given page and all other paths keep theirs; one route is added for the path; the same page is returned |
| PageRegistry.RegisterTwice | src/service/PageService.h:52 | when two pages are added at one path, the last one wins in the map |

## Left out

- The body of the route handler (`src/service/PageService.h:54-64`) is left out. It builds an `AsyncWebServerResponse` from `page->render()`, adds the `X-Framework` header and sends it. All of that is ESPAsyncWebServer library code, so the model only records that a route for the path serving the page was installed. Which handler the library runs when a path is registered twice is library behaviour and is not modelled.
- `Page` and `AsyncWebServer` are opaque classes (`PageRegistry.Page` and `PageRegistry.WebServer`). `core/Page.h` and the web-server library are not part of this model, so page rendering, `addComponent`, titles and id lookup are absent too.
- `PageService::socket` (`src/service/PageService.cpp:14`) is left out. It is a library WebSocket object, and none of the modelled files holds dispatch logic for it.
- The abstract base `Component` cannot be instantiated, because `getContentHTML` is pure virtual. Its constructor defaults are therefore modelled only through `ComponentMarkup.DefaultMarkup` (tag `div`, empty id and class). Every constructed `Component` is one of the five subclasses.
- The getters (`getId`, `getClass`, `getTag`, `getValue`, `isChecked`) are plain functions. Their behaviour is stated through the setters' postconditions.
- Determinism of `toHTML` needs no lemma: `ToHTML` is a function of the fields.
- The parse-back lemmas require attribute values without a double quote. The source escapes nothing, and `Markup.QuoteInValueForgesAttribute` shows that the text is ambiguous otherwise. For buttons and labels they also require the tag to be a name (non-empty, without space, `=`, `"` or `>`). `setTag` accepts any string: after `SetTag("")` a button renders `<>x</>`, which does not parse back as an element. The string-concatenation lemmas (`…ToHTMLIsSerialization`, `…DefaultMarkup`, the Fresh* methods) hold for every input.
- Arduino `String` allocation failure is not modelled. Strings are unbounded sequences of characters. An Arduino `String` holds bytes, while the model's strings hold Unicode characters. Nothing here depends on the difference, because concatenation and emptiness behave the same on both.
- The device bootstrap in `src/main.cpp` and `examples/SimplePage/SimplePage.cpp` (WiFi, Serial, delays, `server.begin()`) is not modelled. Only the button construction of `SimplePage.cpp:32` appears, in `Components.SubmitButton`.
- The browser script `data/framework.js` and the install script `scripts/postinstall.py` are not modelled. They are client-side and file-copying code.
- Component event listeners, `triggerEvent` and a WebSocket event protocol appear in none of the modelled files, so they are not modelled.
