/**
  The response normalizer of `generate_response`: a reply that already shows
  any markdown marker is kept as it is; otherwise every line is stripped and a
  short line ending in a colon is promoted to a bold pseudo-heading.
 */
module ResponseNormalizer {

  import opened PyStr

  /** The substrings whose presence marks a reply as already formatted. */
  const Markers: seq<string> := ["**", "*", "#", "-", "1."]

  /** A stripped line must be shorter than this to become a heading. */
  const HeadingLimit: nat := 50

  /** The reply contains at least one of the markers. */
  predicate HasMarker(text: string) {
    exists m | m in Markers :: Contains(text, m)
  }

  /** The rule for one line: strip it; an empty line stays empty, a line
      ending in ':' shorter than `HeadingLimit` is wrapped in `**`, any other
      line is kept stripped. */
  function FormatLine(line: string): string {
    Emit(Strip(line))
  }

  /** A stripped line that becomes a heading: it ends in ':' and is shorter
      than `HeadingLimit`. */
  predicate IsHeading(s: string) {
    EndsWithChar(s, ':') && |s| < HeadingLimit
  }

  /** What the rule emits for an already stripped line `s`. */
  function Emit(s: string): string {
    if s == "" then ""
    else if IsHeading(s) then "**" + s + "**"
    else s
  }

  /** The rule applied to every line. */
  function FormatAll(lines: seq<string>): seq<string> {
    seq(|lines|, k requires 0 <= k < |lines| => FormatLine(lines[k]))
  }

  /** The whole transform. */
  function Normalize(text: string): string {
    if HasMarker(text) then text
    else Join(FormatAll(Split(text, '\n')), '\n')
  }

  /** The normalizer block of `generate_response`, with its line loop. */
  method NormalizeResponse(responseText: string) returns (r: string)
    ensures r == Normalize(responseText)
  {
    r := responseText;
    if !HasMarker(responseText) {
      var lines := Split(responseText, '\n');
      var formatted: seq<string> := [];
      for i := 0 to |lines|
        invariant |formatted| == i
        invariant forall k :: 0 <= k < i ==> formatted[k] == FormatLine(lines[k])
      {
        var line := Strip(lines[i]);
        var emitted;
        if line != "" {
          if EndsWithChar(line, ':') && |line| < HeadingLimit {
            emitted := "**" + line + "**";
          } else {
            emitted := line;
          }
        } else {
          emitted := "";
        }
        assert emitted == Emit(line);
        formatted := formatted + [emitted];
      }
      assert formatted == FormatAll(lines);
      r := Join(formatted, '\n');
    }
  }

  /** A character that is neither the star nor in `line` is not in the
      formatted line either. */
  lemma FormatLineAvoids(line: string, c: char)
    requires c !in line && c != '*'
    ensures c !in FormatLine(line)
  {
    StripAvoids(line, c);
  }

  /** The line rule is idempotent: a bolded line ends in '*', not ':', so it
      is not bolded again, and any other output is already stripped. */
  lemma FormatLineIdempotent(line: string)
    ensures FormatLine(FormatLine(line)) == FormatLine(line)
  {
    var s := Strip(line);
    StripIdempotent(line);
    var o := Emit(s);
    if s != "" && IsHeading(s) {
      assert o == "**" + s + "**";
      assert o[0] == '*' && o[|o| - 1] == '*';
      StripFixed(o);
      assert !IsHeading(o);
      assert Emit(o) == o;
    } else {
      assert o == "" || o == s;
    }
  }

  /** The formatted lines contain no line break. */
  lemma FormattedLinesUnbroken(text: string)
    ensures forall k :: 0 <= k < |Split(text, '\n')| ==> '\n' !in FormatAll(Split(text, '\n'))[k]
  {
    var lines := Split(text, '\n');
    SplitPartsFree(text, '\n');
    forall k | 0 <= k < |lines|
      ensures '\n' !in FormatAll(lines)[k]
    {
      FormatLineAvoids(lines[k], '\n');
    }
  }

  /** Lines of the formatted text, when the text carries no marker: as many
      as in the input, line `i` being the rule applied to input line `i`. */
  lemma NormalizeLines(text: string)
    requires !HasMarker(text)
    ensures Split(Normalize(text), '\n') == FormatAll(Split(text, '\n'))
    ensures |Split(Normalize(text), '\n')| == |Split(text, '\n')|
  {
    FormattedLinesUnbroken(text);
    SplitJoin(FormatAll(Split(text, '\n')), '\n');
  }

  /** No line of a marker-free text contains a star. */
  lemma LineHasNoStar(text: string, i: int)
    requires !HasMarker(text)
    requires 0 <= i < |Split(text, '\n')|
    ensures '*' !in Strip(Split(text, '\n')[i])
  {
    assert !Contains(text, Markers[1]);
    ContainsChar(text, '*');
    JoinSplit(text, '\n');
    JoinAvoids(Split(text, '\n'), '\n', i, '*');
    StripAvoids(Split(text, '\n')[i], '*');
  }

  /** What the rule does to one line whose stripped form `s` has no star:
      empty stays empty, a short line ending in ':' is bolded, anything else
      is `s`; and the result starts with `**` exactly in the bolded case. */
  lemma FormatLineCases(line: string)
    requires '*' !in Strip(line)
    ensures var s := Strip(line);
            var o := FormatLine(line);
            && (s == "" ==> o == "")
            && (s != "" && IsHeading(s) ==> o == "**" + s + "**")
            && (s != "" && !IsHeading(s) ==> o == s)
            && ((|o| >= 2 && o[..2] == "**") <==> IsHeading(s))
  {
    var s := Strip(line);
    if |s| >= 2 {
      assert s[0] in s;
    }
  }

  /** The per-line rule as the output shows it, for line `i` of a reply
      without markers. */
  lemma NormalizeLine(text: string, i: nat)
    requires !HasMarker(text)
    requires i < |Split(text, '\n')|
    ensures i < |Split(Normalize(text), '\n')|
    ensures var s := Strip(Split(text, '\n')[i]);
            var o := Split(Normalize(text), '\n')[i];
            && (s == "" ==> o == "")
            && (s != "" && IsHeading(s) ==> o == "**" + s + "**")
            && (s != "" && !IsHeading(s) ==> o == s)
            && ((|o| >= 2 && o[..2] == "**") <==> IsHeading(s))
  {
    NormalizeLines(text);
    LineHasNoStar(text, i);
    FormatLineCases(Split(text, '\n')[i]);
  }

  /** A line of 50 characters or more is never bolded, whatever it ends in. */
  lemma LongLineNeverBolded(text: string, i: nat)
    requires !HasMarker(text)
    requires i < |Split(text, '\n')|
    requires |Strip(Split(text, '\n')[i])| >= HeadingLimit
    ensures i < |Split(Normalize(text), '\n')|
    ensures Split(Normalize(text), '\n')[i] == Strip(Split(text, '\n')[i])
  {
    NormalizeLines(text);
  }

  /** A reply carrying any marker is returned unchanged. */
  lemma MarkedTextUnchanged(text: string, m: string)
    requires m in Markers && Contains(text, m)
    ensures Normalize(text) == text
  {
  }

  /** The empty reply normalizes to itself. */
  lemma NormalizeEmpty()
    ensures Normalize("") == ""
  {
    assert !HasMarker("");
    assert Split("", '\n') == [""];
    assert Strip("") == "";
  }

  /** Normalizing twice is normalizing once. */
  lemma NormalizeIdempotent(text: string)
    ensures Normalize(Normalize(text)) == Normalize(text)
  {
    if !HasMarker(text) {
      var out := FormatAll(Split(text, '\n'));
      var y := Join(out, '\n');
      if !HasMarker(y) {
        NormalizeLines(text);
        forall k | 0 <= k < |out|
          ensures FormatLine(out[k]) == out[k]
        {
          FormatLineIdempotent(Split(text, '\n')[k]);
        }
        assert FormatAll(out) == out;
      }
    }
  }

  /** A reply without the characters '*', '#', '-' and '1' has no marker. */
  lemma NoMarkerWithout(text: string)
    requires '*' !in text && '#' !in text && '-' !in text && '1' !in text
    ensures !HasMarker(text)
  {
    forall m | m in Markers
      ensures !Contains(text, m)
    {
      if Contains(text, m) {
        ContainsHead(text, m);
      }
    }
  }
}
