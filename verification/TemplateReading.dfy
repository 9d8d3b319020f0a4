// What counts as a placeholder in a template, said of its characters.
module TemplateReading {
  import opened Wrappers
  import opened Placeholders
  import Text

  predicate IsWord(s: string) {
    s != [] && forall c | c in s :: c in "abcdefghijklmnopqrstuvwxyz_"
  }

  lemma NameCharacters(c: char)
    ensures NameChar(c) <==> c in "abcdefghijklmnopqrstuvwxyz_"
  {
    var all := "abcdefghijklmnopqrstuvwxyz_";
    assert forall i | 0 <= i < 26 :: all[i] as int == 'a' as int + i;
    if 'a' <= c <= 'z' {
      assert all[c as int - 'a' as int] == c;
    } else if c == '_' {
      assert all[26] == c;
    }
  }

  lemma WordsAreNameChars(s: string)
    ensures IsWord(s) <==> s != [] && forall c | c in s :: NameChar(c)
  {
    forall c ensures NameChar(c) <==> c in "abcdefghijklmnopqrstuvwxyz_" {
      NameCharacters(c);
    }
  }

  /** One word, or two with a dot between them. */
  ghost predicate Dotted(name: string) {
    IsWord(name) || exists group, key :: IsWord(group) && IsWord(key) && name == group + "." + key
  }

  lemma WordIsSpellable(name: string)
    requires IsWord(name)
    ensures Spellable(name)
  {
    WordsAreNameChars(name);
    Text.SpanStops(name, [], NameChar);
    assert name + [] == name && name[..|name|] == name && name[|name|..] == [];
  }

  lemma WordAt(s: string) returns (word: string)
    ensures word == s[..Text.Span(s, NameChar)] && s == word + s[Text.Span(s, NameChar)..] && (word == [] || IsWord(word))
  {
    Text.SpanIsAmong(s, NameChar);
    word := s[..Text.Span(s, NameChar)];
    WordsAreNameChars(word);
  }

  lemma NameIsDotted(s: string, name: string, rest: string)
    requires NameAt(s) == Some((name, rest))
    ensures Dotted(name) && s == name + rest
  {
    var group := WordAt(s);
    if name != group {
      var after := s[|group| + 1..];
      var key := WordAt(after);
      assert s == group + "." + after;
      assert name == group + "." + key;
    }
  }

  /** The names a template can use are one word of small letters and underscores, or two of
      them with a dot between. */
  lemma SpellableExactly(name: string)
    ensures Spellable(name) <==> Dotted(name)
  {
    if Spellable(name) {
      NameIsDotted(name, name, []);
    }
    if IsWord(name) {
      WordIsSpellable(name);
    }
    forall group, key | IsWord(group) && IsWord(key) && name == group + "." + key ensures Spellable(name) {
      WordsAreNameChars(group);
      WordsAreNameChars(key);
      DottedIsSpellable(group, key);
    }
  }

  /** Two braces, a name, two braces, with any blanks inside them. */
  ghost predicate Written(s: string, before: string, name: string, after: string, rest: string) {
    Text.Blank(before) && Text.Blank(after) && s == "{{" + (before + (name + (after + ("}}" + rest))))
  }

  lemma PaddedReadsBack(s: string, before: string, name: string, after: string, rest: string)
    requires Spellable(name) && Written(s, before, name, after, rest)
    ensures PlaceholderAt(s) == Some((name, rest))
  {
    Text.BlanksAreSpaces(before);
    Text.BlanksAreSpaces(after);
    var closing := "}}" + rest;
    var tail := after + closing;
    assert s[2..] == before + (name + tail);
    assert NameChar(name[0]) && (name + tail)[0] == name[0];
    Text.SpanStops(before, name + tail, Text.IsSpace);
    assert after != [] ==> after[0] in after && tail[0] == after[0];
    assert after == [] ==> tail == closing;
    NameBefore(name, tail);
    Text.SpanStops(after, closing, Text.IsSpace);
    assert closing[2..] == rest;
  }

  lemma PlaceholderIsWritten(s: string, name: string, rest: string)
    requires PlaceholderAt(s) == Some((name, rest))
    ensures Spellable(name) && exists before, after :: Written(s, before, name, after, rest)
  {
    var inner := s[2..];
    var next := NameAt(Text.AfterSpaces(inner)).value.1;
    NameIsDotted(Text.AfterSpaces(inner), name, next);
    SpellableExactly(name);
    var before := Text.BlanksComeOff(inner);
    var after := Text.BlanksComeOff(next);
    ClosedBy(Text.AfterSpaces(next), rest);
    assert s == "{{" + inner;
    assert Written(s, before, name, after, rest);
  }

  lemma ClosedBy(tail: string, rest: string)
    requires "}}" <= tail && rest == tail[2..]
    ensures tail == "}}" + rest
  {
  }

  /** A placeholder starts exactly where one is written, and is read as its name and what
      follows it. */
  lemma PlaceholderExactly(s: string, name: string, rest: string)
    ensures PlaceholderAt(s) == Some((name, rest)) <==> Dotted(name) && exists before, after :: Written(s, before, name, after, rest)
  {
    SpellableExactly(name);
    if PlaceholderAt(s) == Some((name, rest)) {
      PlaceholderIsWritten(s, name, rest);
    }
    forall before, after | Dotted(name) && Written(s, before, name, after, rest)
      ensures PlaceholderAt(s) == Some((name, rest))
    {
      PaddedReadsBack(s, before, name, after, rest);
    }
  }

  /** What is filled in has nothing left open in it: no two braces of a kind side by side. */
  lemma NothingIsLeftOpen(template: string, values: Vocabulary)
    requires Substitute(template, values).Ok?
    ensures var text := Substitute(template, values).value;
            forall k :: !Text.OccursAt(text, "{{", k) && !Text.OccursAt(text, "}}", k)
  {
    var text := Substitute(template, values).value;
    Text.ContainsExactly(text, "{{");
    Text.ContainsExactly(text, "}}");
  }
}
