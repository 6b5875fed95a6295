/** Markup stripping for the descriptions of news items: the text outside tags
    is kept, every tag (from `<` up to and including the next `>`) is dropped,
    and an unclosed `<` drops the rest of the text. Character entities are not
    decoded. */
module Markup {

  predicate NoTagOpen(s: string) {
    forall i :: 0 <= i < |s| ==> s[i] != '<'
  }

  /** The text outside tags of `s`, read from a state that is inside a tag
      (`inTag`) or outside one. */
  function StripFrom(s: string, inTag: bool): (r: string)
    ensures NoTagOpen(r)
    ensures |r| <= |s|
    ensures !inTag && NoTagOpen(s) ==> r == s
  {
    if s == [] then []
    else if inTag then StripFrom(s[1..], s[0] != '>')
    else if s[0] == '<' then StripFrom(s[1..], true)
    else
      var rest := StripFrom(s[1..], false);
      assert NoTagOpen(s) ==> NoTagOpen(s[1..]) by {
        if NoTagOpen(s) {
          forall i | 0 <= i < |s[1..]| ensures s[1..][i] != '<' { assert s[1..][i] == s[i + 1]; }
        }
      }
      assert forall i :: 0 <= i < |[s[0]] + rest| ==> ([s[0]] + rest)[i] == if i == 0 then s[0] else rest[i - 1];
      [s[0]] + rest
  }

  /** `strip_markup`: plain text with no tag left in it; text without markup
      comes back unchanged; the result is never longer than the input. */
  function StripMarkup(s: string): (r: string)
    ensures NoTagOpen(r)
    ensures |r| <= |s|
    ensures NoTagOpen(s) ==> r == s
  {
    StripFrom(s, false)
  }

  /** Plain text before the first tag is kept as it is. */
  lemma {:induction false} PlainPrefixKept(p: string, s: string)
    requires NoTagOpen(p)
    ensures StripMarkup(p + s) == p + StripMarkup(s)
    decreases |p|
  {
    if p == [] {
      assert p + s == s;
    } else {
      assert (p + s)[0] == p[0] && (p + s)[1..] == p[1..] + s;
      assert NoTagOpen(p[1..]) by {
        forall i | 0 <= i < |p[1..]| ensures p[1..][i] != '<' { assert p[1..][i] == p[i + 1]; }
      }
      PlainPrefixKept(p[1..], s);
      assert [p[0]] + (p[1..] + StripMarkup(s)) == p + StripMarkup(s);
    }
  }

  /** A closed tag is dropped and stripping carries on after it. */
  lemma {:induction false} TagThenText(tag: string, text: string)
    requires forall i :: 0 <= i < |tag| ==> tag[i] != '>'
    ensures StripMarkup("<" + tag + ">" + text) == StripMarkup(text)
  {
    var s := "<" + tag + ">" + text;
    assert s[0] == '<' && s[1..] == tag + ">" + text;
    InsideTag(tag, text);
  }

  lemma {:induction false} InsideTag(tag: string, text: string)
    requires forall i :: 0 <= i < |tag| ==> tag[i] != '>'
    ensures StripFrom(tag + ">" + text, true) == StripFrom(text, false)
    decreases |tag|
  {
    var s := tag + ">" + text;
    if tag == [] {
      assert s[0] == '>' && s[1..] == text;
    } else {
      assert s[0] == tag[0] && s[1..] == tag[1..] + ">" + text;
      InsideTag(tag[1..], text);
    }
  }

  /** Text wrapped in an element, such as a paragraph, keeps its text. */
  lemma WrappedTextKept(open: string, close: string, text: string)
    requires forall i :: 0 <= i < |open| ==> open[i] != '>'
    requires forall i :: 0 <= i < |close| ==> close[i] != '>'
    requires NoTagOpen(text)
    ensures StripMarkup("<" + open + ">" + text + "<" + close + ">") == text
  {
    var closing := "<" + close + ">";
    assert "<" + open + ">" + text + "<" + close + ">" == "<" + open + ">" + (text + closing);
    TagThenText(open, text + closing);
    PlainPrefixKept(text, closing);
    assert closing == "<" + close + ">" + [];
    TagThenText(close, []);
    assert StripMarkup(closing) == [];
    assert text + [] == text;
  }

  /** Stripping is idempotent: stripping plain text changes nothing. */
  lemma StripMarkupIdempotent(s: string)
    ensures StripMarkup(StripMarkup(s)) == StripMarkup(s)
  {
  }
}
