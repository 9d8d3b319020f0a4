// Templates: each `{{ name }}` replaced by its value, or a refusal that tells a name nobody
// has from one the host did not report.
module Placeholders {
  import opened Wrappers
  import Text

  /** A name without a value is one that templates know and the host did not report. */
  type Vocabulary = map<string, Option<string>>

  datatype Fault = Unknown(name: string) | Unreported(name: string) | Unclosed

  // --------------------------------------------------------------------------- scanning

  predicate NameChar(c: char) {
    'a' <= c <= 'z' || c == '_'
  }

  /** A name at the start of the text, with one group before it where there is one, and what
      follows. */
  function NameAt(s: string): (r: Option<(string, string)>)
    ensures r.Some? ==> |r.value.1| < |s|
  {
    var n := Text.Span(s, NameChar);
    if n == 0 then None
    else
      var m := if n < |s| && s[n] == '.' then Text.Span(s[n + 1..], NameChar) else 0;
      if m == 0 then Some((s[..n], s[n..])) else Some((s[..n + 1 + m], s[n + 1 + m..]))
  }

  /** A whole placeholder at the start of the text: its name, and what follows. */
  function PlaceholderAt(s: string): (r: Option<(string, string)>)
    ensures r.Some? ==> |r.value.1| < |s|
  {
    if !("{{" <= s) then None
    else
      match NameAt(Text.AfterSpaces(s[2..]))
      case None => None
      case Some((name, rest)) =>
        var tail := Text.AfterSpaces(rest);
        if "}}" <= tail then Some((name, tail[2..])) else None
  }

  datatype Piece = Letter(c: char) | Hole(name: string)

  /** The template as the scan takes it apart, left to right. */
  function PiecesOf(template: string): seq<Piece>
    decreases |template|
  {
    if template == [] then []
    else
      match PlaceholderAt(template)
      case Some((name, rest)) => [Hole(name)] + PiecesOf(rest)
      case None => [Letter(template[0])] + PiecesOf(template[1..])
  }

  // ------------------------------------------------------------------------ substituting

  function Fill(pieces: seq<Piece>, values: Vocabulary): Result<string, Fault> {
    if pieces == [] then Ok([])
    else
      var first :- OnePiece(pieces[0], values);
      var rest :- Fill(pieces[1..], values);
      Ok(first + rest)
  }

  function OnePiece(piece: Piece, values: Vocabulary): Result<string, Fault> {
    match piece
    case Letter(c) => Ok([c])
    case Hole(name) =>
      if name !in values then Err(Unknown(name))
      else if values[name].None? then Err(Unreported(name))
      else Ok(values[name].value)
  }

  predicate HasBraces(s: string) {
    Text.Contains(s, "{{") || Text.Contains(s, "}}")
  }

  /** The template with a value in each of its places, or why there is none. */
  function Substitute(template: string, values: Vocabulary): Result<string, Fault> {
    var filled :- Fill(PiecesOf(template), values);
    if HasBraces(filled) then Err(Unclosed) else Ok(filled)
  }

  // ------------------------------------------------------------------------------ laws

  /** The names a template uses. */
  function NamesIn(template: string): set<string> {
    set piece | piece in PiecesOf(template) && piece.Hole? :: piece.name
  }

  predicate Has(values: Vocabulary, name: string) {
    name in values && values[name].Some?
  }

  /** The text of the pieces where every name has a value. */
  function Filled(pieces: seq<Piece>, values: Vocabulary): string {
    if pieces == [] then []
    else
      (match pieces[0]
       case Letter(c) => [c]
       case Hole(name) => if Has(values, name) then values[name].value else [])
      + Filled(pieces[1..], values)
  }

  /** A refusal names one of the pieces, and what is wrong with it. */
  predicate Explains(fault: Fault, pieces: seq<Piece>, values: Vocabulary) {
    && !fault.Unclosed? && Hole(fault.name) in pieces
    && (if fault.Unknown? then fault.name !in values else fault.name in values && values[fault.name].None?)
  }

  predicate AllReported(pieces: seq<Piece>, values: Vocabulary) {
    forall p | p in pieces && p.Hole? :: Has(values, p.name)
  }

  lemma {:induction false} FillIsExact(pieces: seq<Piece>, values: Vocabulary)
    ensures Fill(pieces, values).Ok? <==> AllReported(pieces, values)
    ensures Fill(pieces, values).Ok? ==> Fill(pieces, values).value == Filled(pieces, values)
    ensures Fill(pieces, values).Err? ==> Explains(Fill(pieces, values).error, pieces, values)
  {
    if pieces != [] {
      FillIsExact(pieces[1..], values);
      assert pieces == [pieces[0]] + pieces[1..];
    }
  }

  /** A template is filled in exactly when every name it uses has a value and no brace is
      left over; a refusal names a name of it that is not one, or that has none. */
  lemma SubstituteIsExact(template: string, values: Vocabulary)
    ensures Substitute(template, values).Ok? <==> Fills(template, values)
    ensures Substitute(template, values).Ok? ==> Substitute(template, values).value == Filled(PiecesOf(template), values)
    ensures var r := Substitute(template, values);
            r.Err? ==> if r.error.Unclosed? then AllReported(PiecesOf(template), values)
                       else Explains(r.error, PiecesOf(template), values)
  {
    FillIsExact(PiecesOf(template), values);
  }

  predicate Fills(template: string, values: Vocabulary) {
    AllReported(PiecesOf(template), values) && !HasBraces(Filled(PiecesOf(template), values))
  }

  /** The same names, with a value for some that had none. */
  predicate Reveals(v: Vocabulary, w: Vocabulary) {
    v.Keys == w.Keys && forall name | name in v :: v[name].None? || v[name] == w[name]
  }

  lemma {:induction false} FillPersists(pieces: seq<Piece>, v: Vocabulary, w: Vocabulary)
    requires Reveals(v, w)
    ensures Fill(pieces, v) == Fill(pieces, w) || (Fill(pieces, v).Err? && Fill(pieces, v).error.Unreported?)
  {
    if pieces != [] {
      FillPersists(pieces[1..], v, w);
    }
  }

  /** A template is filled in, or refused, the same whatever else is reported, unless it
      wanted for a name this host did not report. */
  lemma SubstitutePersists(template: string, v: Vocabulary, w: Vocabulary)
    requires Reveals(v, w)
    ensures Substitute(template, v) == Substitute(template, w)
            || (Substitute(template, v).Err? && Substitute(template, v).error.Unreported?)
  {
    FillPersists(PiecesOf(template), v, w);
  }

  // ------------------------------------------------------------------------- round trip

  /** A name that can be written between braces. */
  predicate Spellable(name: string) {
    NameAt(name) == Some((name, []))
  }

  predicate Writable(piece: Piece) {
    match piece
    case Letter(c) => c != '{'
    case Hole(name) => Spellable(name)
  }

  function Spelled(piece: Piece): string {
    match piece
    case Letter(c) => [c]
    case Hole(name) => "{{ " + name + " }}"
  }

  /** A template written from its pieces. */
  function Written(pieces: seq<Piece>): string {
    if pieces == [] then []
    else Spelled(pieces[0]) + Written(pieces[1..])
  }

  lemma NameBefore(name: string, rest: string)
    requires Spellable(name) && rest != [] && !NameChar(rest[0]) && rest[0] != '.'
    ensures NameAt(name + rest) == Some((name, rest))
  {
    var n := Text.Span(name, NameChar);
    Text.SpanIsAmong(name, NameChar);
    assert name == name[..n] + name[n..];
    if n == |name| {
      Text.SpanStops(name, rest, NameChar);
    } else {
      var after := name[n + 1..];
      var m := Text.Span(after, NameChar);
      Text.SpanIsAmong(after, NameChar);
      assert name[n] == '.' && m == |after| && after[..m] == after;
      Text.SpanStops(name[..n], name[n..] + rest, NameChar);
      assert name + rest == name[..n] + (name[n..] + rest);
      Text.SpanStops(after, rest, NameChar);
      assert (name + rest)[n + 1..] == after + rest;
      assert (name + rest)[..|name|] == name && (name + rest)[|name|..] == rest;
    }
  }

  /** A group and a name, with a dot between them, is a name that can be written. */
  lemma DottedIsSpellable(group: string, name: string)
    requires group != [] && name != [] && (forall c | c in group :: NameChar(c)) && forall c | c in name :: NameChar(c)
    ensures Spellable(group + "." + name)
  {
    var s := group + "." + name;
    assert s == group + ("." + name) && ("." + name)[1..] == name;
    Text.SpanStops(group, "." + name, NameChar);
    assert s[|group| + 1..] == name;
    Text.SpanStops(name, [], NameChar);
    assert name + [] == name && s[..|s|] == s && s[|s|..] == [];
  }

  lemma PlaceholderReadsBack(name: string, rest: string)
    requires Spellable(name)
    ensures PlaceholderAt("{{ " + name + " }}" + rest) == Some((name, rest))
  {
    var s := "{{ " + name + " }}" + rest;
    var inner := name + (" }}" + rest);
    assert s[2..] == " " + inner;
    assert NameChar(name[0]) && inner[0] == name[0];
    Text.SpanStops(" ", inner, Text.IsSpace);
    NameBefore(name, " }}" + rest);
    assert " }}" + rest == " " + ("}}" + rest);
    Text.SpanStops(" ", "}}" + rest, Text.IsSpace);
    assert ("}}" + rest)[2..] == rest;
  }

  lemma OnePieceScans(piece: Piece, rest: string)
    requires Writable(piece)
    ensures PiecesOf(Spelled(piece) + rest) == [piece] + PiecesOf(rest)
  {
    match piece
    case Letter(c) => LetterScans(c, rest);
    case Hole(name) => HoleScans(name, rest);
  }

  lemma LetterScans(c: char, rest: string)
    requires c != '{'
    ensures PiecesOf([c] + rest) == [Letter(c)] + PiecesOf(rest)
  {
    assert ([c] + rest)[0] == c && ([c] + rest)[1..] == rest;
    assert PlaceholderAt([c] + rest).None?;
  }

  lemma HoleScans(name: string, rest: string)
    requires Spellable(name)
    ensures PiecesOf("{{ " + name + " }}" + rest) == [Hole(name)] + PiecesOf(rest)
  {
    PlaceholderReadsBack(name, rest);
  }

  /** Scanning a template gives back the pieces it was written from. */
  lemma {:induction false} WrittenReadsBack(pieces: seq<Piece>)
    requires forall p | p in pieces :: Writable(p)
    ensures PiecesOf(Written(pieces)) == pieces
  {
    if pieces != [] {
      WrittenReadsBack(pieces[1..]);
      OnePieceScans(pieces[0], Written(pieces[1..]));
    }
  }

  // -------------------------------------------------------------------- nothing left open

  predicate Braceless(s: string) {
    forall c | c in s :: c != '{' && c != '}'
  }

  function Letters(s: string): seq<Piece> {
    if s == [] then [] else [Letter(s[0])] + Letters(s[1..])
  }

  lemma {:induction false} BracelessIsLetters(s: string)
    requires Braceless(s)
    ensures PiecesOf(s) == Letters(s) && forall p | p in Letters(s) :: p.Letter?
  {
    if s != [] {
      assert s[0] in s && forall c | c in s[1..] :: c in s;
      BracelessIsLetters(s[1..]);
      LetterScans(s[0], s[1..]);
      assert s == [s[0]] + s[1..];
    }
  }

  lemma {:induction false} LettersFill(s: string, values: Vocabulary)
    ensures Filled(Letters(s), values) == s
  {
    if s != [] {
      LettersFill(s[1..], values);
      assert Letters(s)[1..] == Letters(s[1..]);
    }
  }

  lemma {:induction false} BracelessContainsNone(s: string, part: string)
    requires Braceless(s) && part != [] && (part[0] == '{' || part[0] == '}')
    ensures !Text.Contains(s, part)
  {
    if s != [] {
      assert s[0] in s && forall c | c in s[1..] :: c in s;
      BracelessContainsNone(s[1..], part);
    }
  }

  /** A text without braces is a template that is itself, whatever the names stand for. */
  lemma BracelessIsItself(s: string, values: Vocabulary)
    requires Braceless(s)
    ensures Fills(s, values) && Substitute(s, values) == Ok(s)
  {
    BracelessIsLetters(s);
    LettersFill(s, values);
    BracelessContainsNone(s, "{{");
    BracelessContainsNone(s, "}}");
    SubstituteIsExact(s, values);
  }

  lemma BracelessFills(s: string, values: Vocabulary)
    requires Braceless(s)
    ensures Fills(s, values)
  {
    BracelessIsItself(s, values);
  }
}
