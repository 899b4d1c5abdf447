/** The per-user expense wizard of both bot variants: `/start`, `/gasto`
    (`nuevo_gasto`), the category button handler (`seleccionar_categoria`)
    and the free-text handler (`procesar_mensaje_gasto`), as one pure step
    function from (session, event) to (session', reply, ledger effects). */
module Wizard {
  import opened Wrappers
  import PyStrings
  import Numerals
  import Catalog
  import Keyboard
  import Ledger

  /** The two copies of the bot: the root `main.py` and the webhook `api/index.py`.
      They differ in how the callback data is split and whether the text is stripped. */
  datatype Variant = RootScript | ApiIndex

  /** `context.user_data.get('categoria')`: the selected category key, if any. */
  type Session = Option<string>

  /** An update as the registered handlers see it. */
  datatype Event =
    | Start                         // `/start`
    | NewExpense                    // `/gasto`
    | CallbackQuery(data: string)   // a pressed inline button
    | TextMessage(text: string)     // a text message that is not a command

  /** An exception a handler lets escape: it ends the handler without a reply. */
  datatype Failure = KeyError(key: string) | IndexError

  /** What the user is sent; only the kind of reply and the values it shows are modelled. */
  datatype Reply =
    | Greeting
    | CategoryMenu(rows: seq<seq<Keyboard.Button>>)
    | CategoryPrompt(categoryLabel: string)
    | NeedCategory
    | FormatError
    | Saved(categoryLabel: string, amount: real, description: string)
    | SaveFailed
    | Raised(failure: Failure)
    | NotHandled

  /** The arguments of one `guardar_gasto_en_sheets` call. */
  datatype Expense = Expense(userId: int, category: string, amount: real, description: string)

  /** The outcome of one update: the new session, the reply, the ledger call made
      (if any) and the row that call appended (if any). */
  datatype Response = Response(session: Session, reply: Reply, submitted: Option<Expense>, appended: Option<seq<Ledger.Cell>>)

  /** A parsed expense message. */
  datatype Parsed = Parsed(amount: real, description: string)

  const DefaultDescription: string := "Sin descripción"

  /** The category key inside callback data: `data.split('_')[1]` in `main.py`,
      `data.split('_', 1)[1]` in `api/index.py`; nothing where the index raises. */
  function CallbackKey(v: Variant, data: string): (r: Option<string>)
    ensures r.Some? <==> '_' in data
  {
    var parts := match v
      case RootScript => PyStrings.SplitAll(data, '_')
      case ApiIndex => PyStrings.SplitOnce(data, '_');
    if |parts| > 1 then Some(parts[1]) else None
  }

  /** In `api/index.py` the key is everything after the first `_`. */
  lemma ApiCallbackKeyMeaning(data: string)
    requires '_' in data
    ensures CallbackKey(ApiIndex, data) == Some(data[PyStrings.IndexOf(data, '_').value + 1..])
  {
    var parts := PyStrings.SplitOnce(data, '_');
    assert data[..|parts[0]|] == parts[0];
    PyStrings.IndexOfFirst(data, '_', |parts[0]|);
    assert data[|parts[0]| + 1..] == parts[1];
  }

  /** In `main.py` the key is only the run after the first `_` up to the next
      `_` or the end of the data. */
  lemma RootCallbackKeyMeaning(data: string)
    requires '_' in data
    ensures CallbackKey(RootScript, data).Some?
    ensures var p := PyStrings.IndexOf(data, '_').value;
      var key := CallbackKey(RootScript, data).GetOr("");
      && '_' !in key
      && p + 1 + |key| <= |data|
      && key == data[p + 1..p + 1 + |key|]
      && (p + 1 + |key| == |data| || data[p + 1 + |key|] == '_')
  {
    PyStrings.SecondPiece(data, '_', PyStrings.IndexOf(data, '_').value);
  }

  /** Both variants read back the key of a catalog button; `main.py` only
      because no catalog key contains `_`. */
  lemma CallbackKeyOfButton(v: Variant, key: string)
    requires v == ApiIndex || '_' !in key
    ensures CallbackKey(v, Keyboard.CallbackPrefix + key) == Some(key)
  {
    var data := Keyboard.CallbackPrefix + key;
    assert data[..9] == "categoria";
    PyStrings.IndexOfFirst(data, '_', 9);
    assert data[10..] == key;
    if v == RootScript {
      PyStrings.SplitAllAfterHead("categoria", '_', key);
      assert data == "categoria" + "_" + key;
    }
  }

  /** In `main.py` a key with an underscore is cut at that underscore. */
  lemma RootScriptTruncatesKey(head: string, tail: string)
    requires '_' !in head
    ensures CallbackKey(RootScript, Keyboard.CallbackPrefix + head + "_" + tail) == Some(head)
  {
    var data := Keyboard.CallbackPrefix + head + "_" + tail;
    assert data == "categoria" + "_" + (head + "_" + tail);
    assert data[..9] == "categoria";
    PyStrings.IndexOfFirst(data, '_', 9);
    PyStrings.SplitAllAfterHead("categoria", '_', head + "_" + tail);
    PyStrings.SplitAllAfterHead(head, '_', tail);
  }

  /** `seleccionar_categoria`, behind the handler pattern `^categoria_`. The key
      is stored before its label is looked up, so an unknown key is stored
      even though the lookup then raises `KeyError`. */
  function SelectCategory(v: Variant, s: Session, data: string): (r: Response)
    ensures r.submitted.None? && r.appended.None?
    ensures !(Keyboard.CallbackPrefix <= data) ==> r.session == s && r.reply == NotHandled
    ensures Keyboard.CallbackPrefix <= data ==>
      && CallbackKey(v, data).Some?
      && r.session == CallbackKey(v, data)
      && (r.session.value in Catalog.Keys() ==> r.reply == CategoryPrompt(Catalog.LabelOf(r.session.value).value))
      && (r.session.value !in Catalog.Keys() ==> r.reply == Raised(KeyError(r.session.value)))
  {
    if !(Keyboard.CallbackPrefix <= data) then Response(s, NotHandled, None, None)
    else
      assert data[9] == '_';
      match CallbackKey(v, data)
      case None => Response(s, Raised(IndexError), None, None)
      case Some(key) =>
        match Catalog.LabelOf(key)
        case Some(l) => Response(Some(key), CategoryPrompt(l), None, None)
        case None => Response(Some(key), Raised(KeyError(key)), None, None)
  }

  /** `float(token.replace(',', '.'))`: a comma is read as a decimal point. */
  function AmountOf(token: string): (r: Option<real>)
    ensures ',' !in token ==> r == Numerals.ParseFloat(token)
  {
    var normalised := PyStrings.ReplaceChar(token, ',', '.');
    if ',' in token then Numerals.ParseFloat(normalised)
    else
      PyStrings.ReplaceCharAbsent(token, ',', '.');
      Numerals.ParseFloat(normalised)
  }

  /** An amount word is accepted exactly when, with every `,` read as `.`, it
      is a signed or unsigned decimal numeral. */
  lemma AmountOfAccepts(token: string)
    ensures AmountOf(token).Some? <==> Numerals.IsFloatNumeral(PyStrings.ReplaceChar(token, ',', '.'))
  {
    Numerals.ParseFloatAccepts(PyStrings.ReplaceChar(token, ',', '.'));
  }

  /** The text the handler splits: `api/index.py` strips it first, `main.py` does not. */
  function MessageText(v: Variant, text: string): (t: string)
    ensures v == RootScript ==> t == text
    ensures v == ApiIndex ==> PyStrings.Trimmed(t) && |t| <= |text|
  {
    if v == ApiIndex then PyStrings.Strip(text) else text
  }

  /** Splits `monto descripción` at the first single space; the amount is the
      first piece with commas read as points, the description the rest or
      `Sin descripción`; nothing where `float` raises `ValueError`. */
  function ParseExpense(v: Variant, text: string): (r: Option<Parsed>)
    ensures var t := MessageText(v, text);
      && (r.Some? && ' ' in t ==>
          var w := |t| - |r.value.description| - 1;
          && 0 <= w && ' ' !in t[..w]
          && t == t[..w] + " " + r.value.description
          && AmountOf(t[..w]) == Some(r.value.amount))
      && (' ' !in t ==> r.Some? == AmountOf(t).Some?)
      && (r.Some? && ' ' !in t ==> r.value == Parsed(AmountOf(t).value, DefaultDescription))
  {
    var t := MessageText(v, text);
    var parts := PyStrings.SplitOnce(t, ' ');
    match AmountOf(parts[0])
    case None => None
    case Some(amount) =>
      var description := if |parts| > 1 then parts[1] else DefaultDescription;
      Some(Parsed(amount, description))
  }

  /** A message text made of an amount word, one space and a description
      parses to the word's amount and exactly that description, or to
      nothing when the word is not a number. */
  lemma ParseComposedMessage(v: Variant, text: string, word: string, description: string)
    requires ' ' !in word
    requires MessageText(v, text) == word + " " + description
    ensures ParseExpense(v, text) ==
      match AmountOf(word)
      case Some(a) => Some(Parsed(a, description))
      case None => None
  {
    var t := word + " " + description;
    assert t[..|word|] == word;
    PyStrings.IndexOfFirst(t, ' ', |word|);
    assert t[|word| + 1..] == description;
  }

  /** `api/index.py` ignores whitespace around the message. */
  lemma ApiIgnoresPadding(p: string, text: string, q: string)
    requires PyStrings.AllSpace(p) && PyStrings.AllSpace(q)
    ensures ParseExpense(ApiIndex, p + text + q) == ParseExpense(ApiIndex, text)
  {
    PyStrings.StripIgnoresPadding(p, text, q);
  }

  /** `api/index.py` parses exactly what `main.py` parses of the stripped text. */
  lemma ApiParsesStripped(text: string)
    ensures ParseExpense(ApiIndex, text) == ParseExpense(RootScript, PyStrings.Strip(text))
  {
  }

  /** On a text with no whitespace at either end the two copies agree. */
  lemma CopiesAgreeOnTrimmed(text: string)
    requires PyStrings.Trimmed(text)
    ensures ParseExpense(ApiIndex, text) == ParseExpense(RootScript, text)
  {
    PyStrings.StripTrimmed(text);
  }

  /** `"120 "` in `main.py`: the description is the empty string after the space. */
  lemma RootScriptTrailingSpace()
    ensures ParseExpense(RootScript, "120 ") == Some(Parsed(120.0, ""))
  {
    Amount120();
    assert "120" + " " + "" == "120 ";
    ParseComposedMessage(RootScript, "120 ", "120", "");
  }

  /** `"120 "` in `api/index.py`: stripping removes the space, so the default description is used. */
  lemma ApiTrailingSpace()
    ensures ParseExpense(ApiIndex, "120 ") == Some(Parsed(120.0, DefaultDescription))
  {
    assert MessageText(ApiIndex, "120 ") == "120" by {
      assert PyStrings.AllSpace(" ");
      assert "" + "120" + " " == "120 ";
      PyStrings.StripIgnoresPadding("", "120", " ");
      assert PyStrings.LeadingSpaces("120") == 0;
      assert PyStrings.TrailingSpaces("120") == 0;
    }
    assert ' ' !in "120";
    Amount120();
  }

  lemma Amount120()
    ensures AmountOf("120") == Some(120.0)
  {
    assert PyStrings.ReplaceChar("120", ',', '.') == "120";
    assert '.' !in "120";
    assert Numerals.DigitsValue("120") == 120 by {
      assert "120"[..2] == "12";
      assert "12"[..1] == "1";
    }
  }

  lemma Float3550()
    ensures Numerals.ParseFloat("35.50") == Some(35.5)
  {
    var s := "35.50";
    assert s[..2] == "35" && s[3..] == "50";
    PyStrings.IndexOfFirst(s, '.', 2);
    assert Numerals.DigitsValue("35") == 35 by { assert "35"[..1] == "3"; }
    assert Numerals.DigitsValue("50") == 50 by { assert "50"[..1] == "5"; }
  }

  /** `"35,50"` and `"35.50"` are the same amount, 35.5. */
  lemma CommaAmountExample()
    ensures AmountOf("35,50") == AmountOf("35.50") == Some(35.5)
  {
    assert PyStrings.ReplaceChar("35,50", ',', '.') == "35.50";
    assert PyStrings.ReplaceChar("35.50", ',', '.') == "35.50";
    Float3550();
  }

  /** Two tokens that differ only in writing `,` or `.` at some positions. */
  predicate SameUpToSeparator(a: string, b: string) {
    && |a| == |b|
    && forall i | 0 <= i < |a| :: a[i] == b[i] || (a[i] in ",." && b[i] in ",.")
  }

  /** Whether the decimal separator is written `,` or `.` never changes the amount. */
  lemma SeparatorSpellingIrrelevant(a: string, b: string)
    requires SameUpToSeparator(a, b)
    ensures AmountOf(a) == AmountOf(b)
  {
    var ra := PyStrings.ReplaceChar(a, ',', '.');
    var rb := PyStrings.ReplaceChar(b, ',', '.');
    forall i | 0 <= i < |a| ensures ra[i] == rb[i] { }
    assert ra == rb;
  }

  /** An empty message, or in `main.py` one starting with a space, has no amount. */
  lemma EmptyAmountToken(v: Variant, text: string)
    requires |text| == 0 || (v == RootScript && text[0] == ' ')
    ensures ParseExpense(v, text).None?
  {
    if |text| > 0 {
      PyStrings.IndexOfFirst(text, ' ', 0);
      assert PyStrings.SplitOnce(text, ' ')[0] == "";
    }
  }

  /** `procesar_mensaje_gasto`. */
  function ProcessText(v: Variant, s: Session, userId: int, text: string,
                       clock: Ledger.Clock, sheet: Ledger.Sheet): (r: Response)
    // no category: the `/gasto` hint, no ledger call, session untouched
    ensures s.None? ==> r == Response(s, NeedCategory, None, None)
    // malformed amount: the format-error reply, no ledger call, category kept
    ensures s.Some? && ParseExpense(v, text).None? ==> r == Response(s, FormatError, None, None)
    // well-formed: exactly one ledger call with the stored key and the parsed values
    ensures s.Some? && ParseExpense(v, text).Some? ==>
      var p := ParseExpense(v, text).value;
      && r.submitted == Some(Expense(userId, s.value, p.amount, p.description))
      && (r.appended.Some? <==> sheet == Ledger.Available(true))
      && (r.appended.None? ==> r.session.None? && r.reply == SaveFailed)
      && (r.appended.Some? && s.value in Catalog.Keys() ==>
            r.session.None? && r.reply == Saved(Catalog.LabelOf(s.value).value, p.amount, p.description))
      && (r.appended.Some? && s.value !in Catalog.Keys() ==>
            r.session == s && r.reply == Raised(KeyError(s.value)))
  {
    match s
    case None => Response(s, NeedCategory, None, None)
    case Some(key) =>
      match ParseExpense(v, text)
      case None => Response(s, FormatError, None, None)
      case Some(p) =>
        var expense := Expense(userId, key, p.amount, p.description);
        var appended := Ledger.Save(userId, key, p.amount, p.description, clock, sheet);
        if appended.Some? then
          match Catalog.LabelOf(key)
          case Some(l) => Response(None, Saved(l, p.amount, p.description), Some(expense), appended)
          case None => Response(s, Raised(KeyError(key)), Some(expense), appended)
        else Response(None, SaveFailed, Some(expense), None)
  }

  /** One update for one user. */
  function Step(v: Variant, s: Session, userId: int, e: Event,
                clock: Ledger.Clock, sheet: Ledger.Sheet): (r: Response)
    // no ledger call without a selected category, and it uses that category
    ensures r.submitted.Some? ==>
      && e.TextMessage? && s.Some?
      && r.submitted.value.category == s.value && r.submitted.value.userId == userId
    ensures r.appended.Some? ==> r.submitted.Some? && sheet == Ledger.Available(true)
    // commands never touch the session
    ensures e.Start? || e.NewExpense? ==> r.session == s && r.submitted.None?
    ensures e.NewExpense? ==> r.reply == CategoryMenu(Keyboard.CategoryMenu())
    // only a button sets the session; only a ledger call clears it
    ensures r.session != s ==>
      || (e.CallbackQuery? && r.session.Some?)
      || (r.submitted.Some? && r.session.None?)
  {
    match e
    case Start => Response(s, Greeting, None, None)
    case NewExpense => Response(s, CategoryMenu(Keyboard.CategoryMenu()), None, None)
    case CallbackQuery(data) => SelectCategory(v, s, data)
    case TextMessage(text) => ProcessText(v, s, userId, text, clock, sheet)
  }

  /** The session holds nothing or a catalog key. */
  predicate CatalogSession(s: Session) {
    s.None? || s.value in Catalog.Keys()
  }

  /** A button press can only carry the data of a menu button. */
  predicate FromMenu(e: Event) {
    e.CallbackQuery? ==> exists i | 0 <= i < |Catalog.Keys()| :: e.data == Keyboard.CallbackPrefix + Catalog.Keys()[i]
  }

  /** The reply is not an escaped exception and the session is within the catalog. */
  predicate SafeResponse(r: Response) {
    !r.reply.Raised? && CatalogSession(r.session)
  }

  /** When buttons come from the menu, a step keeps the session within the
      catalog, never raises, and clears the session after every ledger call. */
  lemma MenuStepIsSafe(v: Variant, s: Session, userId: int, e: Event,
                       clock: Ledger.Clock, sheet: Ledger.Sheet)
    requires CatalogSession(s) && FromMenu(e)
    ensures SafeResponse(Step(v, s, userId, e, clock, sheet))
    ensures Step(v, s, userId, e, clock, sheet).submitted.Some? ==> Step(v, s, userId, e, clock, sheet).session.None?
  {
    match e
    case CallbackQuery(data) =>
      var i :| 0 <= i < |Catalog.Keys()| && data == Keyboard.CallbackPrefix + Catalog.Keys()[i];
      MenuButtonIsSafe(v, s, i);
    case TextMessage(text) =>
    case Start =>
    case NewExpense =>
  }

  /** Pressing a menu button stores that button's key and prompts with its label. */
  lemma MenuButtonIsSafe(v: Variant, s: Session, i: nat)
    requires i < |Catalog.Keys()|
    ensures SelectCategory(v, s, Keyboard.CallbackPrefix + Catalog.Keys()[i])
      == Response(Some(Catalog.Keys()[i]), CategoryPrompt(Catalog.LabelOf(Catalog.Keys()[i]).GetOr("")), None, None)
  {
    var key := Catalog.Keys()[i];
    Catalog.CatalogShape();
    CallbackKeyOfButton(v, key);
    assert Keyboard.CallbackPrefix <= Keyboard.CallbackPrefix + key;
  }

  /** One update of a run: the event with the clock and sheet it meets. */
  datatype Input = Input(event: Event, clock: Ledger.Clock, sheet: Ledger.Sheet)

  /** The responses to a sequence of updates from one user, threading the session. */
  function Run(v: Variant, s: Session, userId: int, inputs: seq<Input>): (rs: seq<Response>)
    ensures |rs| == |inputs|
    decreases |inputs|
  {
    if |inputs| == 0 then []
    else
      var r := Step(v, s, userId, inputs[0].event, inputs[0].clock, inputs[0].sheet);
      [r] + Run(v, r.session, userId, inputs[1..])
  }

  /** Over any run whose button presses come from the menu, no handler ever
      raises and the session is always empty or a catalog key. */
  lemma {:induction false} MenuRunIsSafe(v: Variant, s: Session, userId: int, inputs: seq<Input>)
    requires CatalogSession(s)
    requires forall i | 0 <= i < |inputs| :: FromMenu(inputs[i].event)
    ensures forall i | 0 <= i < |inputs| :: SafeResponse(Run(v, s, userId, inputs)[i])
    decreases |inputs|
  {
    if |inputs| > 0 {
      var x := inputs[0];
      var r := Step(v, s, userId, x.event, x.clock, x.sheet);
      MenuStepIsSafe(v, s, userId, x.event, x.clock, x.sheet);
      var tail := inputs[1..];
      assert forall i | 0 <= i < |tail| :: FromMenu(tail[i].event) by {
        forall i | 0 <= i < |tail| ensures FromMenu(tail[i].event) {
          assert tail[i] == inputs[i + 1];
        }
      }
      MenuRunIsSafe(v, r.session, userId, tail);
      var rest := Run(v, r.session, userId, tail);
      var rs := Run(v, s, userId, inputs);
      assert rs == [r] + rest;
      forall i | 0 <= i < |inputs| ensures SafeResponse(rs[i]) {
        if i > 0 {
          assert rs[i] == rest[i - 1];
        }
      }
    }
  }
}
