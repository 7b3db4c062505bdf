/** The template step of `sendEmail`: after the template file is read, each
    replacement entry, in order, replaces the first `{{key}}` of the text with
    its value through `String.prototype.replace` with a string pattern. Mail
    delivery is not modelled; the read is a parameter. */
module Mail {

  import opened Common

  /** `pattern` occurs in `s` at index `j`. */
  predicate OccursAt(s: string, pattern: string, j: int)
  {
    0 <= j <= |s| && pattern <= s[j..]
  }

  /** `s.indexOf(pattern, from)`. */
  function IndexOf(s: string, pattern: string, from: nat): (r: Option<nat>)
    ensures r.Some? ==> from <= r.value && OccursAt(s, pattern, r.value)
    ensures r.Some? ==> forall j :: from <= j < r.value ==> !OccursAt(s, pattern, j)
    ensures r.None? ==> forall j :: from <= j ==> !OccursAt(s, pattern, j)
    decreases |s| - from
  {
    if from + |pattern| > |s| then None
    else if pattern <= s[from..] then Some(from)
    else IndexOf(s, pattern, from + 1)
  }

  /** The replacement text that `replace` inserts for one match when the
      pattern is a string (so there are no capture groups): `$$` is a dollar
      sign, `$&` the matched text, `` $` `` the text before the match, `$'` the
      text after it; every other character, and every other `$`, is itself. */
  function Expand(replacement: string, matched: string, before: string, after: string): string
    decreases |replacement|
  {
    if |replacement| == 0 then ""
    else if replacement[0] == '$' && |replacement| >= 2 && replacement[1] in "$&`'" then
      var piece :=
        if replacement[1] == '$' then "$"
        else if replacement[1] == '&' then matched
        else if replacement[1] == '`' then before
        else after;
      piece + Expand(replacement[2..], matched, before, after)
    else [replacement[0]] + Expand(replacement[1..], matched, before, after)
  }

  /** `s.replace(pattern, replacement)` with a string pattern. */
  function ReplaceFirst(s: string, pattern: string, replacement: string): string
  {
    match IndexOf(s, pattern, 0)
    case None => s
    case Some(i) =>
      s[..i] + Expand(replacement, pattern, s[..i], s[i + |pattern|..]) + s[i + |pattern|..]
  }

  function Placeholder(key: string): string
  {
    "{{" + key + "}}"
  }

  /** The text after every replacement entry has been applied, in order. */
  function SubstituteAll(template: string, replacements: seq<(string, string)>): string
    decreases |replacements|
  {
    if |replacements| == 0 then template
    else SubstituteAll(ReplaceFirst(template, Placeholder(replacements[0].0), replacements[0].1), replacements[1..])
  }

  /** The loop `for (const [key, value] of Object.entries(replacements))
      customizedTemplate = customizedTemplate.replace(`{{${key}}}`, value)`;
      the entries come in the object's insertion order. */
  method CustomizeTemplate(data: string, replacements: seq<(string, string)>) returns (customized: string)
    ensures customized == SubstituteAll(data, replacements)
  {
    customized := data;
    for i := 0 to |replacements|
      invariant SubstituteAll(customized, replacements[i..]) == SubstituteAll(data, replacements)
    {
      assert replacements[i..][1..] == replacements[i + 1..];
      var (key, value) := replacements[i];
      customized := ReplaceFirst(customized, Placeholder(key), value);
    }
    assert replacements[|replacements|..] == [];
  }

  /** A call `sendEmail(to, subject, template, replacements)`, the entries in
      the insertion order of the replacements object. */
  datatype Notice = Notice(to: string, subject: string, template: string, replacements: seq<(string, string)>)

  datatype MailOptions = MailOptions(to: string, subject: string, html: string)

  /** `sendEmail` up to the hand-over to the transport. `templateFile` is what
      reading the template file gave: nothing when the read failed, in which
      case no message is built. */
  method SendEmail(email: string, subject: string, templateFile: Option<string>, replacements: seq<(string, string)>)
    returns (mail: Option<MailOptions>)
    ensures templateFile.None? <==> mail.None?
    ensures templateFile.Some? ==>
      mail == Some(MailOptions(email, subject, SubstituteAll(templateFile.value, replacements)))
  {
    if templateFile.None? {
      return None;
    }
    var html := CustomizeTemplate(templateFile.value, replacements);
    mail := Some(MailOptions(email, subject, html));
  }

  // ---------------------------------------------------------------------
  // Properties of the substitution

  lemma {:induction false} ExpandWithoutDollar(replacement: string, matched: string, before: string, after: string)
    requires '$' !in replacement
    ensures Expand(replacement, matched, before, after) == replacement
  {
    if |replacement| > 0 {
      assert '$' !in replacement[1..];
      ExpandWithoutDollar(replacement[1..], matched, before, after);
    }
  }

  /** A value without `$` replaces exactly the first occurrence of the
      pattern, and the text around it is kept. */
  lemma ReplaceFirstOccurrence(s: string, pattern: string, value: string, i: nat)
    requires OccursAt(s, pattern, i)
    requires forall j :: 0 <= j < i ==> !OccursAt(s, pattern, j)
    requires '$' !in value
    ensures ReplaceFirst(s, pattern, value) == s[..i] + value + s[i + |pattern|..]
  {
    assert IndexOf(s, pattern, 0) == Some(i);
    ExpandWithoutDollar(value, pattern, s[..i], s[i + |pattern|..]);
  }

  /** A text in which the pattern does not occur comes out unchanged. */
  lemma ReplaceAbsent(s: string, pattern: string, value: string)
    requires forall j :: !OccursAt(s, pattern, j)
    ensures ReplaceFirst(s, pattern, value) == s
  {
  }

  lemma SuffixOfConcat(a: string, b: string, m: nat)
    requires m <= |b|
    ensures (a + b)[|a| + m..] == b[m..]
  {
  }

  /** Only the first occurrence is replaced: a later occurrence that does not
      overlap an earlier one is still there afterwards, whatever the value. */
  lemma SecondOccurrenceSurvives(s: string, pattern: string, value: string, i: nat, j: nat)
    requires OccursAt(s, pattern, i) && OccursAt(s, pattern, j) && i + |pattern| <= j
    ensures Contains(ReplaceFirst(s, pattern, value), pattern)
  {
    var k := IndexOf(s, pattern, 0);
    assert k.Some? && k.value <= i;
    var n := k.value;
    var head := s[..n] + Expand(value, pattern, s[..n], s[n + |pattern|..]);
    var tail := s[n + |pattern|..];
    var m := j - n - |pattern|;
    assert tail[m..] == s[j..];
    SuffixOfConcat(head, tail, m);
    var r := head + tail;
    assert r[|head| + m..] == s[j..];
    assert OccursAt(r, pattern, |head| + m);
  }

  /** A template holding no placeholder of any entry comes out unchanged. */
  lemma {:induction false} NoPlaceholderUnchanged(template: string, replacements: seq<(string, string)>)
    requires forall k, j :: 0 <= k < |replacements| ==> !OccursAt(template, Placeholder(replacements[k].0), j)
    ensures SubstituteAll(template, replacements) == template
  {
    if |replacements| > 0 {
      ReplaceAbsent(template, Placeholder(replacements[0].0), replacements[0].1);
      forall k, j | 0 <= k < |replacements| - 1
        ensures !OccursAt(template, Placeholder(replacements[1..][k].0), j)
      {
        assert replacements[1..][k] == replacements[k + 1];
      }
      NoPlaceholderUnchanged(template, replacements[1..]);
    }
  }

  /** Substitution is sequential: the last entry is applied to the text that
      all the earlier entries have produced. */
  lemma {:induction false} SubstituteAllSnoc(template: string, replacements: seq<(string, string)>, key: string, value: string)
    ensures SubstituteAll(template, replacements + [(key, value)])
         == ReplaceFirst(SubstituteAll(template, replacements), Placeholder(key), value)
    decreases |replacements|
  {
    var all := replacements + [(key, value)];
    if |replacements| == 0 {
      assert all == [(key, value)];
      assert all[1..] == [];
    } else {
      assert all[0] == replacements[0];
      assert all[1..] == replacements[1..] + [(key, value)];
      SubstituteAllSnoc(ReplaceFirst(template, Placeholder(replacements[0].0), replacements[0].1),
                        replacements[1..], key, value);
    }
  }

  /** For example, a placeholder that an earlier value brings in is filled
      by a later entry. */
  lemma SequentialSubstitution()
    ensures SubstituteAll("{{a}}", [("a", "{{b}}"), ("b", "x")]) == "x"
  {
    SubstituteAllSnoc("{{a}}", [("a", "{{b}}")], "b", "x");
    SubstituteAllSnoc("{{a}}", [], "a", "{{b}}");
    assert [("a", "{{b}}")] == [] + [("a", "{{b}}")];
    assert [("a", "{{b}}"), ("b", "x")] == [("a", "{{b}}")] + [("b", "x")];
    ReplaceFirstOccurrence("{{a}}", "{{a}}", "{{b}}", 0);
    ReplaceFirstOccurrence("{{b}}", "{{b}}", "x", 0);
  }

  /** A value `$&` puts the matched text itself back, so any text comes out
      unchanged: the value is not inserted literally. */
  lemma DollarAmpersandKeepsPlaceholder(s: string, pattern: string)
    ensures ReplaceFirst(s, pattern, "$&") == s
  {
    match IndexOf(s, pattern, 0)
    case None =>
    case Some(i) =>
      assert "$&"[2..] == "";
      assert Expand("$&", pattern, s[..i], s[i + |pattern|..]) == pattern;
      assert s[i..i + |pattern|] == pattern;
      assert s == s[..i] + s[i..i + |pattern|] + s[i + |pattern|..];
  }
}
