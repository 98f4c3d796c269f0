/** The keyword dispatch of the WhatsApp webhook: the inbound `Body` is
    lower-cased, tested against four keywords in a fixed order, and the first
    keyword found selects one canned reply; with no keyword the options reply
    is sent. */
module Webhook {
  import opened Text

  /** What an inbound message asks for, one value per branch of the dispatch. */
  datatype Intent = Greet | ScheduleHelp | Confirm | Cancel | Unknown

  const Hola: string := "hola"
  const Agendar: string := "agendar"
  const Confirmar: string := "confirmar"
  const Cancelar: string := "cancelar"

  /** The `if`/`elif` chain on the already lower-cased message: the first
      keyword that occurs decides, earlier keywords shadowing later ones. */
  function Dispatch(msg: string): Intent {
    if Contains(msg, Hola) then Greet
    else if Contains(msg, Agendar) then ScheduleHelp
    else if Contains(msg, Confirmar) then Confirm
    else if Contains(msg, Cancelar) then Cancel
    else Unknown
  }

  /** The intent of an inbound `Body`: lower-case it, then dispatch. */
  function Classify(body: string): Intent {
    Dispatch(ToLower(body))
  }

  /** The command menu that both the greeting and the fallback end with. */
  const OptionsMenu: string := "Opciones: AGENDAR cita, CONFIRMAR cita, CANCELAR cita"

  /** The fixed reply text of each branch: an emoji, a space, the message. */
  function Reply(i: Intent): string {
    match i
    case Greet => "👋 " + "¡Hola! Soy tu asistente médico. " + OptionsMenu
    case ScheduleHelp => "📅 " + "Para agendar cita, escribe: AGENDAR [fecha] [hora]. Ejemplo: AGENDAR 25 enero 3pm"
    case Confirm => "✅ " + "Cita confirmada. ¡Te esperamos!"
    case Cancel => "❌ " + "Cita cancelada. ¿Quieres agendar nueva cita?"
    case Unknown => "🤖 " + OptionsMenu
  }

  /** The single message put into the response for an inbound `Body`. */
  function Respond(body: string): string {
    Reply(Classify(body))
  }

  // ---------------------------------------------------------------------------
  // The rules, stated on the lower-cased body with the substring relation.

  /** Each of the four keyword tests is the substring relation. */
  lemma KeywordTestsAreSubstring(msg: string)
    ensures Contains(msg, Hola) <==> IsSubstring(Hola, msg)
    ensures Contains(msg, Agendar) <==> IsSubstring(Agendar, msg)
    ensures Contains(msg, Confirmar) <==> IsSubstring(Confirmar, msg)
    ensures Contains(msg, Cancelar) <==> IsSubstring(Cancelar, msg)
  {
    ContainsCorrect(msg, Hola);
    ContainsCorrect(msg, Agendar);
    ContainsCorrect(msg, Confirmar);
    ContainsCorrect(msg, Cancelar);
  }

  /** "hola" wins over every other keyword. */
  lemma GreetIff(body: string)
    ensures Classify(body) == Greet <==> IsSubstring(Hola, ToLower(body))
  {
    KeywordTestsAreSubstring(ToLower(body));
  }

  lemma ScheduleHelpIff(body: string)
    ensures Classify(body) == ScheduleHelp <==>
      IsSubstring(Agendar, ToLower(body)) && !IsSubstring(Hola, ToLower(body))
  {
    KeywordTestsAreSubstring(ToLower(body));
  }

  lemma ConfirmIff(body: string)
    ensures Classify(body) == Confirm <==>
      IsSubstring(Confirmar, ToLower(body))
      && !IsSubstring(Hola, ToLower(body)) && !IsSubstring(Agendar, ToLower(body))
  {
    KeywordTestsAreSubstring(ToLower(body));
  }

  lemma CancelIff(body: string)
    ensures Classify(body) == Cancel <==>
      IsSubstring(Cancelar, ToLower(body))
      && !IsSubstring(Hola, ToLower(body)) && !IsSubstring(Agendar, ToLower(body))
      && !IsSubstring(Confirmar, ToLower(body))
  {
    KeywordTestsAreSubstring(ToLower(body));
  }

  /** The options fallback is sent exactly when no keyword occurs. */
  lemma UnknownIff(body: string)
    ensures Classify(body) == Unknown <==>
      !IsSubstring(Hola, ToLower(body)) && !IsSubstring(Agendar, ToLower(body))
      && !IsSubstring(Confirmar, ToLower(body)) && !IsSubstring(Cancelar, ToLower(body))
  {
    KeywordTestsAreSubstring(ToLower(body));
  }

  // ---------------------------------------------------------------------------
  // The same dispatch as an ordered rule list read first-match-wins.

  /** The keyword rules in the order the webhook tests them. */
  const Rules: seq<(string, Intent)> :=
    [(Hola, Greet), (Agendar, ScheduleHelp), (Confirmar, Confirm), (Cancelar, Cancel)]

  /** Rule `n` is the first rule whose keyword occurs in `msg`. */
  ghost predicate FirstMatch(msg: string, n: int) {
    && 0 <= n < |Rules|
    && IsSubstring(Rules[n].0, msg)
    && forall j :: 0 <= j < n ==> !IsSubstring(Rules[j].0, msg)
  }

  /** The intent a first-match-wins reading of `Rules` selects for `msg`,
      with `Unknown` when no rule matches. */
  ghost predicate Selects(msg: string, i: Intent) {
    || (exists n :: FirstMatch(msg, n) && Rules[n].1 == i)
    || (i == Unknown && forall n :: 0 <= n < |Rules| ==> !IsSubstring(Rules[n].0, msg))
  }

  /** The chain in `Dispatch` is exactly that reading: for every body,
      `Classify` returns an intent the rules select, and the rules select no
      other. */
  lemma ClassifyIsFirstMatch(body: string, i: Intent)
    ensures Selects(ToLower(body), i) <==> Classify(body) == i
  {
    var msg := ToLower(body);
    var c := Classify(body);
    KeywordTestsAreSubstring(msg);
    var n := if IsSubstring(Hola, msg) then 0
      else if IsSubstring(Agendar, msg) then 1
      else if IsSubstring(Confirmar, msg) then 2
      else if IsSubstring(Cancelar, msg) then 3
      else 4;
    if n < 4 {
      assert FirstMatch(msg, n) && Rules[n].1 == c;
      forall m | FirstMatch(msg, m) ensures m == n {
      }
      assert Rules[0].1 != Unknown && Rules[1].1 != Unknown && Rules[2].1 != Unknown && Rules[3].1 != Unknown;
    } else {
      assert c == Unknown;
      forall m | 0 <= m < |Rules| ensures !IsSubstring(Rules[m].0, msg) {
      }
    }
  }

  // ---------------------------------------------------------------------------
  // Case and position of the keyword.

  /** Matching ignores ASCII case: a body and its lower-cased form get the same reply. */
  lemma ClassifyCaseInsensitive(body: string)
    ensures Classify(ToLower(body)) == Classify(body)
  {
    ToLowerIdempotent(body);
  }

  /** Any casing `w` of rule `n`'s keyword, placed anywhere in the body, even
      inside a longer word, selects rule `n` unless an earlier keyword also
      occurs. */
  lemma KeywordAnywhereSelects(p: string, w: string, q: string, n: nat)
    requires n < |Rules| && ToLower(w) == Rules[n].0
    requires forall j :: 0 <= j < n ==> !IsSubstring(Rules[j].0, ToLower(p + w + q))
    ensures Classify(p + w + q) == Rules[n].1
  {
    ToLowerAppend(p + w, q);
    ToLowerAppend(p, w);
    SubstringEmbedded(ToLower(p), Rules[n].0, ToLower(q));
    assert FirstMatch(ToLower(p + w + q), n);
    ClassifyIsFirstMatch(p + w + q, Rules[n].1);
  }

  /** "hola" in any casing and any position is a greeting, whatever else the
      message says. */
  lemma GreetAnywhere(p: string, w: string, q: string)
    requires ToLower(w) == Hola
    ensures Classify(p + w + q) == Greet
  {
    KeywordAnywhereSelects(p, w, q, 0);
  }

  // ---------------------------------------------------------------------------
  // One reply per message.

  /** Distinct intents have distinct reply texts. */
  lemma ReplyInjective(a: Intent, b: Intent)
    ensures Reply(a) == Reply(b) ==> a == b
  {
    // the five replies have five different lengths
    assert |Reply(Greet)| == 87;
    assert |Reply(ScheduleHelp)| == 83;
    assert |Reply(Confirm)| == 33;
    assert |Reply(Cancel)| == 46;
    assert |Reply(Unknown)| == 55;
  }

  /** Every message gets exactly one reply: the reply text names the intent
      `Classify` chose and no other. */
  lemma ExactlyOneReply(body: string, i: Intent)
    ensures Respond(body) == Reply(i) <==> Classify(body) == i
  {
    ReplyInjective(Classify(body), i);
  }
}
