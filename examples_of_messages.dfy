/** Concrete inbound messages and the reply the webhook picks for each. */
module MessageExamples {
  import opened Text
  import opened Webhook

  /** A message made of a casing `w` of rule `n`'s keyword followed by a
      lower-case text `q`, where `missing[j]` is a letter of rule `j`'s
      keyword that does not occur in the lowered message (one for each
      earlier rule), selects rule `n`. */
  lemma CommandSelects(w: string, q: string, n: nat, missing: string)
    requires n < |Rules| && ToLower(w) == Rules[n].0 && IsLower(q)
    requires |missing| == n
    requires forall j :: 0 <= j < n ==> missing[j] in Rules[j].0 && missing[j] !in Rules[n].0 + q
    ensures Classify(w + q) == Rules[n].1
  {
    var lowered := ToLower(w) + q;
    assert "" + w + q == w + q;
    ToLowerFixesLower(q);
    ToLowerAppend(w, q);
    assert ToLower("" + w + q) == lowered;
    forall j | 0 <= j < n ensures !IsSubstring(Rules[j].0, ToLower("" + w + q)) {
      var c, k := missing[j], Rules[j].0;
      assert c in k && c !in lowered;
      MissingCharNotSubstring(k, lowered, c);
    }
    KeywordAnywhereSelects("", w, q, n);
  }

  /** Substring matching at work: "Holanda" is taken for a greeting, and a
      request to cancel that starts with "Hola" is greeted, not cancelled. */
  lemma EmbeddedAndShadowed()
    ensures Classify("Holanda") == Greet
    ensures Classify("Hola, quiero cancelar mi cita") == Greet
  {
    assert "Holanda" == "" + "Hola" + "nda";
    GreetAnywhere("", "Hola", "nda");
    assert "Hola, quiero cancelar mi cita" == "" + "Hola" + ", quiero cancelar mi cita";
    GreetAnywhere("", "Hola", ", quiero cancelar mi cita");
  }

  // The commands the options reply advertises ("AGENDAR cita, CONFIRMAR
  // cita, CANCELAR cita"), sent back as written, each select their own rule.

  lemma AdvertisedScheduleCommand()
    ensures Classify("AGENDAR cita") == ScheduleHelp
  {
    assert "AGENDAR cita" == "AGENDAR" + " cita";
    CommandSelects("AGENDAR", " cita", 1, "h");
  }

  lemma AdvertisedConfirmCommand()
    ensures Classify("CONFIRMAR cita") == Confirm
  {
    assert "CONFIRMAR cita" == "CONFIRMAR" + " cita";
    CommandSelects("CONFIRMAR", " cita", 2, "hg");
  }

  lemma AdvertisedCancelCommand()
    ensures Classify("CANCELAR cita") == Cancel
  {
    assert "CANCELAR cita" == "CANCELAR" + " cita";
    CommandSelects("CANCELAR", " cita", 3, "hgf");
  }

  /** The usage example of the schedule-help reply, sent as instructed, only
      brings the same help text back: this dispatch has no booking branch. */
  lemma UsageExampleRepeatsHelp()
    ensures Respond("AGENDAR 25 enero 3pm") == Reply(ScheduleHelp)
  {
    assert "AGENDAR 25 enero 3pm" == "AGENDAR" + " 25 enero 3pm";
    CommandSelects("AGENDAR", " 25 enero 3pm", 1, "h");
  }
}
