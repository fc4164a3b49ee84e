/** The credential column of an input record is a JSON document that was
    escaped so that it can travel inside one field of a delimited line.
    Before the JSON is parsed the escaping is undone by two chained
    `str::replace` passes: first `\,` becomes `,`, then `\\` becomes `\`
    (tools/offline-processor/src/main.rs, deserialize_json_string_credentialcolumn).

    The matching encoder lives in whatever produced the input file; it is
    defined here as the inverse the decoder expects: double every backslash,
    then put a backslash in front of every comma. */
module Escaping {

  const Backslash: char := '\\'
  const Comma: char := ','

  /** `s.replace(from, to)` for a non-empty pattern: scan left to right and
      replace every non-overlapping occurrence of `from` by `to`. */
  function Replace(s: string, from: string, to: string): (r: string)
    requires |from| > 0
    ensures |to| <= |from| ==> |r| <= |s|
    ensures from[0] !in s ==> r == s
    decreases |s|
  {
    if |s| == 0 then []
    else if |from| <= |s| && s[..|from|] == from then to + Replace(s[|from|..], from, to)
    else [s[0]] + Replace(s[1..], from, to)
  }

  /** The first pass of the decoder: `\,` becomes `,`. */
  function UnescapeCommas(s: string): (r: string) {
    Replace(s, [Backslash, Comma], [Comma])
  }

  /** The second pass of the decoder: `\\` becomes `\`. */
  function CollapseBackslashes(s: string): (r: string) {
    Replace(s, [Backslash, Backslash], [Backslash])
  }

  /** The decoder as the source chains it: the comma pass runs first. */
  function Unescape(s: string): (r: string)
    ensures |r| <= |s|
    ensures Backslash !in s ==> r == s
  {
    CollapseBackslashes(UnescapeCommas(s))
  }

  /** First pass of the encoder: every backslash is doubled. */
  function DoubleBackslashes(s: string): (r: string) {
    Replace(s, [Backslash], [Backslash, Backslash])
  }

  /** Second pass of the encoder: every comma gets a backslash in front. */
  function EscapeCommas(s: string): (r: string) {
    Replace(s, [Comma], [Backslash, Comma])
  }

  /** The encoder that the decoder inverts. */
  function Escape(s: string): (r: string) {
    EscapeCommas(DoubleBackslashes(s))
  }

  /** Replacing a one-character pattern works character by character. */
  lemma ReplaceOneChar(s: string, from: char, to: string)
    requires |s| > 0
    ensures Replace(s, [from], to) == (if s[0] == from then to else [s[0]]) + Replace(s[1..], [from], to)
  {
    assert s[..1] == [s[0]];
  }

  /** The comma pass of the encoder never leaves a comma at the front. */
  lemma EscapedCommasStartWithoutComma(t: string)
    ensures EscapeCommas(t) == [] || EscapeCommas(t)[0] != Comma
  {
    if |t| > 0 {
      ReplaceOneChar(t, Comma, [Backslash, Comma]);
    }
  }

  /** The decoder's comma pass undoes the encoder's comma pass, for every
      string, backslashes included. */
  lemma {:induction false} UnescapeCommasOfEscapeCommas(t: string)
    ensures UnescapeCommas(EscapeCommas(t)) == t
  {
    if |t| > 0 {
      var e := EscapeCommas(t[1..]);
      UnescapeCommasOfEscapeCommas(t[1..]);
      EscapedCommasStartWithoutComma(t[1..]);
      ReplaceOneChar(t, Comma, [Backslash, Comma]);
      if t[0] == Comma {
        var w := [Backslash, Comma] + e;
        assert EscapeCommas(t) == w;
        assert w[..2] == [Backslash, Comma] && w[2..] == e;
        assert UnescapeCommas(w) == [Comma] + UnescapeCommas(e);
      } else {
        var w := [t[0]] + e;
        assert EscapeCommas(t) == w;
        assert w[1..] == e;
        assert UnescapeCommas(w) == [t[0]] + UnescapeCommas(e);
      }
      assert t == [t[0]] + t[1..];
    }
  }

  /** The decoder's backslash pass undoes the encoder's doubling. */
  lemma {:induction false} CollapseOfDoubled(s: string)
    ensures CollapseBackslashes(DoubleBackslashes(s)) == s
  {
    if |s| > 0 {
      var d := DoubleBackslashes(s[1..]);
      CollapseOfDoubled(s[1..]);
      ReplaceOneChar(s, Backslash, [Backslash, Backslash]);
      if s[0] == Backslash {
        var w := [Backslash, Backslash] + d;
        assert DoubleBackslashes(s) == w;
        assert w[..2] == [Backslash, Backslash] && w[2..] == d;
        assert CollapseBackslashes(w) == [Backslash] + CollapseBackslashes(d);
      } else {
        var w := [s[0]] + d;
        assert DoubleBackslashes(s) == w;
        assert w[1..] == d;
        assert CollapseBackslashes(w) == [s[0]] + CollapseBackslashes(d);
      }
      assert s == [s[0]] + s[1..];
    }
  }

  /** Round trip: decoding an encoded column gives back the original text,
      including text that holds commas and backslashes. It holds because the
      comma pass runs before the backslash pass. */
  lemma UnescapeEscape(s: string)
    ensures Unescape(Escape(s)) == s
  {
    UnescapeCommasOfEscapeCommas(DoubleBackslashes(s));
    CollapseOfDoubled(s);
  }

  /** Two different columns never encode to the same text. */
  lemma EscapeInjective(s: string, s': string)
    requires Escape(s) == Escape(s')
    ensures s == s'
  {
    UnescapeEscape(s);
    UnescapeEscape(s');
  }
}
