# Portfolio page behaviour, modelled in Dafny

This project models the client-side logic of a single-page personal portfolio site, all of which lives in `assets/js/script.js`. The DOM is replaced by plain values: sequences of strings, flags and records. The model covers:

- **HTML escaping** (`escapeHTML`). It is proved to lose nothing: a decoder gives the input back. It is also proved to leave no `<`, `>`, `"` or `'`, and every `&` in its output opens an entity reference.
- **The contact form** (module `ContactForm`):
  - the live length cap per input name (`LIMITS`);
  - the enabled look of the submit button (`checkInputs`);
  - the email test `\S+@\S+\.\S+`, proved equal to the regular expression's own meaning;
  - the ordered, short-circuiting checks of `validateForm`;
  - the success handler.
- **The captcha secret**: building it from five random picks out of a fixed 56-character alphabet, and the trimmed, case-insensitive comparison in `validateCaptcha`.
- **The project filter** (`filterFunc`, the filter buttons with `lastClickedBtn`, the drop-down entries) and **the page router** (`showPage`, restoring the page on load, navigation links). Both are classes whose methods update the active flags in loops.
- **The blog widget after the response arrives**:
  - `edges.map(e => e.node).slice(0, 4)`;
  - the empty and error views;
  - the URL fallback `https://<host>/<slug>`;
  - the escaped title and excerpt of each card.

Files: `text.dfy` holds `Wrappers` (Option) and `Text` (JavaScript `trim`, white space and `toLowerCase`). The other files are `escape.dfy`, `captcha.dfy`, `contact.dfy`, `navigation.dfy` and `blog.dfy`.

The model follows the code in these details:

- After a successful send, the code resets the form and adds the `disabled` class. It does not generate a new captcha, so `ContactForm.Form.OnSendSuccess` keeps `captchaText`.
- The filter compares the lower-cased caption with the item's `data-category` exactly. The category is neither trimmed nor lower-cased. `Navigation.CapitalCategoryOnlyUnderShowAll` shows the consequence.
- The submit button is not disabled while the mail is being sent. `script.js` never reads its `disabled` class before submitting, so `ContactForm.Form.Submit` does not consult it.
- The 100-character cap on the email is only a live clamp. `validateForm` never checks the email's length.

## Model

| member | source | states |
|---|---|---|
| `Text.Trim` | assets/js/script.js:148-150 | `trim`: result has no white space at either end, is no longer than the input, and is empty exactly when the input is all JavaScript white space |
| `Text.TrimPadded` | assets/js/script.js:248 | trimming `front + core + back` with white-space padding gives back `core`, whatever the padding |
| `Text.Lower` | assets/js/script.js:249 | `toLowerCase` keeps the length and lower-cases each character in place |
| `Escaping.Entity` | assets/js/script.js:264 | each special character becomes an entity starting with `&`; other characters stay themselves; no replacement holds markup characters |
| `Escaping.Escape` | assets/js/script.js:264 | the global replacement never shortens its input |
| `Escaping.EscapeHtml` | assets/js/script.js:262-265 | an absent or empty value gives `""` |
| `Escaping.UnescapeEscape` | assets/js/script.js:264 | decoding the escaped text gives back the input: non-special characters are copied unchanged and in order, and each special character becomes exactly its entity |
| `Escaping.EscapeHasNoMarkup` | assets/js/script.js:264 | the output contains no `<`, `>`, `"` or `'` |
| `Escaping.EscapeAmpersandsAreEntities` | assets/js/script.js:264 | every `&` of the output begins `&amp;`, `&lt;`, `&gt;`, `&quot;` or `&#39;` |
| `Escaping.EscapeIdentityIff` | assets/js/script.js:264 | the output equals the input, and has the same length, exactly when the input has no special character |
| `Escaping.EscapeHtmlSafe` | assets/js/script.js:262-265 | whatever the argument, the result is safe text (no markup character, every `&` an entity) |
| `Captcha.SecretFrom` | assets/js/script.js:225-228 | the built secret has one character per draw, namely the alphabet character that draw selects |
| `Captcha.AlphabetShape` | assets/js/script.js:224 | the alphabet has 56 characters, all of them letters and digits other than I, O, l, o, 0, 1 |
| `Captcha.AlphabetHasNoSpace` | assets/js/script.js:224 | no alphabet character is white space |
| `Captcha.GeneratedSecretShape` | assets/js/script.js:224-228 | a generated secret has length 5 and every character is in the alphabet |
| `Captcha.SecretHasNoSpace` | assets/js/script.js:224-228 | a generated secret contains no white space |
| `Captcha.Accepts` | assets/js/script.js:247-254 | an accepted answer, once trimmed, has the secret's length; the trimmed answer equal to the secret is always accepted |
| `Captcha.AcceptsPaddedAnyCase` | assets/js/script.js:247-254 | the captcha check ignores surrounding white space and letter case of the answer |
| `Captcha.GeneratedSecretAccepted` | assets/js/script.js:247-254 | typing the secret back, as shown or lower-cased, passes the check |
| `ContactForm.Limit` | assets/js/script.js:126-130 | exactly `from_name`, `email` and `mensaje` have a cap, and every cap is positive |
| `ContactForm.Clamp` | assets/js/script.js:132-139 | the clamped value is a prefix of the input of length `min(length, cap)`; names without a cap are untouched |
| `ContactForm.ClampIdempotent` | assets/js/script.js:136-137 | clamping twice equals clamping once |
| `ContactForm.ClampMeetsUpperBounds` | assets/js/script.js:126-145 | a clamped name or message, once trimmed, never exceeds the upper bound that `validateForm` checks |
| `ContactForm.LooksLikeEmailIffPattern` | assets/js/script.js:156 | the email test holds exactly when `\S+@\S+\.\S+` matches somewhere in the trimmed address |
| `ContactForm.Validate` | assets/js/script.js:147-172 | success exactly when all three fields are non-blank, the email matches, 3 ≤ name ≤ 50, 10 ≤ message ≤ 500 (trimmed lengths) and the captcha check passes |
| `ContactForm.ValidationOrder` | assets/js/script.js:152-170 | each failure is reported exactly when all earlier checks passed and its own failed (blank fields, email, name length, message length, captcha) |
| `ContactForm.BlankOrWrongCaptchaNeverSends` | assets/js/script.js:187-192 | a blank required field or a wrong captcha answer never leads to a send |
| `ContactForm.IndexOf` | assets/js/script.js:148-150 | finds the first input with the given name, or reports that there is none |
| `ContactForm.Cleared` | assets/js/script.js:178 | `reset` keeps every input and its name and empties its value |
| `ContactForm.ClearedNotFilled` | assets/js/script.js:178-179 | after a reset some input is blank, so the `disabled` class agrees with `checkInputs` |
| `ContactForm.Form.ValueOf` | assets/js/script.js:148-150 | the value read is that of an input carrying the requested name |
| `ContactForm.Form.constructor` | assets/js/script.js:203-256 | page load: the secret starts empty (:218), `checkInputs()` runs (:203), then the load-time `generateCaptcha()` (:256); the disabled look reflects whether some input is blank, and the secret is built from the draws |
| `ContactForm.Form.ClampInput` | assets/js/script.js:132-139 | only the value of the given input changes, to its clamp |
| `ContactForm.Form.CheckInputs` | assets/js/script.js:194-201 | the disabled look is set exactly when some input's trimmed value is empty |
| `ContactForm.Form.OnInput` | assets/js/script.js:204 | an `input` event stores the clamped value, then recomputes the disabled look |
| `ContactForm.Form.GenerateCaptcha` | assets/js/script.js:225-228 | the loop replaces the secret with the string built from the draws |
| `ContactForm.Form.Submit` | assets/js/script.js:146-192 | a missing `from_name`, `email` or `mensaje` field throws, giving no verdict and no send; otherwise the verdict is that of `Validate` on the named fields and the current secret; send happens exactly on success; nothing changes, so a failed check keeps the secret |
| `ContactForm.Form.OnSendSuccess` | assets/js/script.js:176-180 | inputs and captcha answer cleared, disabled look set, secret kept |
| `Navigation.Marks` | assets/js/script.js:59-60 | one flag per element, set exactly where the tag equals the target |
| `Navigation.MarksSingle` | assets/js/script.js:59 | with distinct tags at most one flag is set, and one is set when the target is among the tags |
| `Navigation.Shown` | assets/js/script.js:22-26 | item `i` is active exactly when the value is `"todos"` or equals the item's category |
| `Navigation.CapitalCategoryOnlyUnderShowAll` | assets/js/script.js:22-47 | labels are lower-cased but categories are not, so an item whose category has a capital letter shows only under `"todos"` |
| `Navigation.AfterClick` | assets/js/script.js:48-49 | the clicked button is highlighted, the previously clicked one (if another) is not, and every other button keeps its highlight |
| `Navigation.ClickKeepsSingleHighlight` | assets/js/script.js:48-50 | if at most the last clicked button is highlighted, then after a click exactly the clicked button is |
| `Navigation.ProjectFilter.constructor` | assets/js/script.js:42 | `lastClickedBtn` starts as the first button, or null when there is none |
| `Navigation.ProjectFilter.Filter` | assets/js/script.js:22-26 | the loop leaves each item active exactly as `Shown` says |
| `Navigation.ProjectFilter.ClickButton` | assets/js/script.js:43-52 | items are filtered by the lower-cased caption; the shown choice becomes the caption; the highlight moves from the last clicked button to this one, which is remembered |
| `Navigation.ProjectFilter.ChooseEntry` | assets/js/script.js:31-38 | a drop-down entry filters by its lower-cased caption and leaves the buttons alone |
| `Navigation.StartPage` | assets/js/script.js:66 | the stored page unless it is absent or empty, otherwise `"about"` |
| `Navigation.LinkTarget` | assets/js/script.js:72 | the link's `data-page-target` if non-empty, otherwise its trimmed, lower-cased text |
| `Navigation.PageRouter.constructor` | assets/js/script.js:55-56 | the router holds the markup's sections, links and stored page |
| `Navigation.PageRouter.ShowPage` | assets/js/script.js:58-63 | each section and link is active exactly when its tag equals the page, and the page is stored |
| `Navigation.PageRouter.Load` | assets/js/script.js:65-68 | on load the start page is shown |
| `Navigation.PageRouter.ClickLink` | assets/js/script.js:70-75 | a link click shows the link's target |
| `Navigation.ReloadRestores` | assets/js/script.js:61-66 | a reload shows the last stored page, or `"about"` if it was empty |
| `Navigation.LinkShowsItsSection` | assets/js/script.js:58-75 | with distinct section tags, a link with a target leaves exactly that section active |
| `Blog.Nodes` | assets/js/script.js:296 | every edge is read; a null edge fails, otherwise one node per edge in order |
| `Blog.Select` | assets/js/script.js:296 | a prefix of the nodes, of length `min(4, n)` |
| `Blog.PostUrl` | assets/js/script.js:305 | the post's `url` if present and non-empty, otherwise `https://adeloli.hashnode.dev/<slug>` |
| `Blog.CardOf` | assets/js/script.js:302-305 | the card's title and excerpt are safe text that decodes back to the post's own title and brief (an absent one to ""); the link is the post's address; the image is the cover address, or "" without one |
| `Blog.Render` | assets/js/script.js:301-319 | one card per selected post in order; a missing node fails |
| `Blog.Load` | assets/js/script.js:295-323 | the error message appears exactly when the request failed, some edge anywhere is null, or one of the first four edges has no post; the empty message appears exactly when there are no edges (or no `edges` path); otherwise the cards are those of the first min(4, n) posts, in edge order |
| `Blog.LoadWellFormed` | assets/js/script.js:295-300 | with well-formed edges: none (or no `edges` path) gives the empty message; otherwise `min(4, n)` cards for the first edges, in order |
| `Blog.SevenEdgesFourCards` | assets/js/script.js:296 | seven well-formed edges give exactly four cards |
| `Blog.NullEdgeFailsLoad` | assets/js/script.js:296 | a null edge anywhere, even past the fourth, gives the error message |
| `Blog.CardsAreEscaped` | assets/js/script.js:302-303 | every rendered title and excerpt is safe text |

## Left out

- Canvas work in `generateCaptcha` is not modelled: clearing, fonts, text placement and the five random distractor lines (script.js:221-223, 229-242). It is rendering with floating-point `Math.random`.
- The five random picks are given as indices below 56, the values `Math.floor(Math.random() * 56)` can take. Randomness is not modelled.
- Sidebar toggling, opening and closing the drop-down, suppressing the Enter key, and `window.scrollTo` are not modelled (script.js:9-13, 29-30, 35, 206-215, 62). They are DOM event plumbing.
- The CV viewer is not modelled (script.js:78-116). It is `window.open` / `document.write` browser-window I/O.
- `emailjs.init`, `emailjs.sendForm`, the `Swal.fire` dialogs and `console.error` are third-party calls and are not modelled. A `Verdict` value stands for the alert title that is shown. The send's success is a call to `OnSendSuccess`. The failure handler only shows an alert, so it changes no modelled state.
- The request itself is not modelled: `fetch`, `await`, JSON parsing and the GraphQL query text (script.js:269-294). Its outcome is a `Response` value. The loading placeholder and the card markup are not modelled beyond the card fields. A non-list value at the `edges` path is not modelled.
- `sessionStorage` is the field `PageRouter.stored`. Persistence across reloads is `Load` reading that field.
- Text.Lower: lower-cases the ASCII letters only, while `toLowerCase` follows full Unicode case mapping. For example, the Kelvin sign lower-cases to `k` in JavaScript but is left alone here.
- ContactForm.Clamp: JavaScript lengths count UTF-16 code units, while the model counts Unicode scalar values. Characters outside the Basic Multilingual Plane therefore count once, not twice. The same holds for the length bounds in `ContactForm.Validate`.
- Blog.PostUrl: an absent slug prints as `undefined`. A slug that is `null` (printed `null` by JavaScript) is not distinguished from an absent one.
- ContactForm.Form: the `captcha-input` element is a field of its own, not one of the `[data-form-input]` inputs. `reset` is taken to empty every input and the captcha answer, which assumes the markup gives them no default values and places the `captcha-input` element, found with `document.getElementById`, inside the form.
- ContactForm.Form.Submit: the three fields are looked up among the `[data-form-input]` inputs, while `querySelector` searches the whole form; the model assumes the first element of the form with each of those names is one of these inputs. The `captcha-input` element is assumed present.
- Navigation.ProjectFilter: the element that shows the current choice is looked up with the selector `[data-selecct-value]`. Whether the markup has it is not known here, so `choiceText` is `None` when it is absent.
