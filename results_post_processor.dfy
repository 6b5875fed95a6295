/** Post-processing of search results: how many result pages to offer, and how
    the search engine's private-use highlight markers become HTML. */
module ResultsPostProcessor {
  import opened Common

  /** No more than this many result pages are ever offered. */
  const MaxPages: int := 500

  /** Results shown on one page when the page count is computed. */
  const ResultsPerPage: int := 20

  /** The largest result count whose page count is not capped: 20 * 499. */
  const LargestUncapped: int := ResultsPerPage * (MaxPages - 1)

  /** The argument of `total_pages` as seen through Ruby's `to_i`: either the
      integer `to_i` yields (nil and non-numeric strings already give 0 there),
      or an object that has no integer conversion, whose `to_i` raises. */
  datatype TotalResults = Convertible(n: int) | NoIntegerConversion

  /** Ceiling of the result count over 20, capped at `MaxPages`; a failed
      conversion is rescued and gives 0. Ruby's `/` and `%` floor, which for
      the positive divisor 20 agrees with Dafny's Euclidean `/` and `%`, so a
      negative count also yields its (non-positive) ceiling. */
  function TotalPages(total: TotalResults): (pages: int)
    ensures total.NoIntegerConversion? ==> pages == 0
    ensures pages <= MaxPages
    ensures total.Convertible? && total.n <= LargestUncapped ==>
              ResultsPerPage * (pages - 1) < total.n <= ResultsPerPage * pages
    ensures total.Convertible? && total.n > LargestUncapped ==> pages == MaxPages
  {
    match total
    case NoIntegerConversion => 0
    case Convertible(n) =>
      var pages := n / ResultsPerPage + if n % ResultsPerPage > 0 then 1 else 0;
      if pages >= MaxPages then MaxPages else pages
  }

  function Min(a: int, b: int): int { if a <= b then a else b }

  /** Exactly k full pages give k pages; one more result opens page k + 1. */
  lemma ExactMultiplePages(k: int)
    ensures TotalPages(Convertible(ResultsPerPage * k)) == Min(k, MaxPages)
    ensures TotalPages(Convertible(ResultsPerPage * k + 1)) == Min(k + 1, MaxPages)
  {
  }

  /** More results never mean fewer pages. */
  lemma TotalPagesMonotone(n: int, m: int)
    requires n <= m
    ensures TotalPages(Convertible(n)) <= TotalPages(Convertible(m))
  {
  }

  /** A non-negative result count gives a page count between 0 and `MaxPages`. */
  lemma TotalPagesInRange(n: int)
    requires 0 <= n
    ensures 0 <= TotalPages(Convertible(n)) <= MaxPages
  {
  }

  /** The private-use characters the search engine wraps around hit terms. */
  const OpenMarker: char := '\U{E000}'
  const CloseMarker: char := '\U{E001}'
  const OpenTag: string := "<strong>"
  const CloseTag: string := "</strong>"

  predicate NoMarkers(s: string) {
    forall i :: 0 <= i < |s| ==> s[i] != OpenMarker && s[i] != CloseMarker
  }

  /** Ruby's `gsub` with a one-character pattern: every occurrence of `marker`
      is replaced by `replacement`, left to right. */
  function Gsub(s: string, marker: char, replacement: string): (r: string)
  {
    if s == [] then []
    else (if s[0] == marker then replacement else [s[0]]) + Gsub(s[1..], marker, replacement)
  }

  /** The reference reading of highlight translation: each character on its own. */
  function Expand(c: char): string {
    if c == OpenMarker then OpenTag
    else if c == CloseMarker then CloseTag
    else [c]
  }

  /** The reference translation: one pass, each character expanded in order. */
  function Render(s: string): string {
    if s == [] then [] else Expand(s[0]) + Render(s[1..])
  }

  /** `translate_highlights`: nil stays nil; otherwise the two `gsub` passes. */
  function TranslateHighlights(body: Option<string>): (r: Option<string>)
    ensures r.None? <==> body.None?
    ensures body.Some? ==> r == Some(Render(body.value))
    ensures r.Some? ==> NoMarkers(r.value)
    ensures body.Some? && NoMarkers(body.value) ==> r == body
  {
    match body
    case None => None
    case Some(s) =>
      TwoPassesAreOnePass(s);
      RenderRemovesMarkers(s);
      RenderKeepsPlainText(s);
      Some(Gsub(Gsub(s, OpenMarker, OpenTag), CloseMarker, CloseTag))
  }

  lemma {:induction false} GsubAppend(a: string, b: string, marker: char, replacement: string)
    ensures Gsub(a + b, marker, replacement) == Gsub(a, marker, replacement) + Gsub(b, marker, replacement)
  {
    if a != [] {
      assert (a + b)[0] == a[0] && (a + b)[1..] == a[1..] + b;
      GsubAppend(a[1..], b, marker, replacement);
    } else {
      assert a + b == b;
    }
  }

  lemma {:induction false} GsubAbsent(s: string, marker: char, replacement: string)
    requires forall i :: 0 <= i < |s| ==> s[i] != marker
    ensures Gsub(s, marker, replacement) == s
  {
    if s != [] {
      GsubAbsent(s[1..], marker, replacement);
    }
  }

  /** The two chained substitutions equal the one-pass reference, because the
      opening tag contains no closing marker. */
  lemma {:induction false} TwoPassesAreOnePass(s: string)
    ensures Gsub(Gsub(s, OpenMarker, OpenTag), CloseMarker, CloseTag) == Render(s)
  {
    if s != [] {
      var head := if s[0] == OpenMarker then OpenTag else [s[0]];
      GsubAppend(head, Gsub(s[1..], OpenMarker, OpenTag), CloseMarker, CloseTag);
      GsubAbsent(OpenTag, CloseMarker, CloseTag);
      TwoPassesAreOnePass(s[1..]);
    }
  }

  lemma {:induction false} RenderRemovesMarkers(s: string)
    ensures NoMarkers(Render(s))
  {
    if s != [] {
      RenderRemovesMarkers(s[1..]);
      var e, rest := Expand(s[0]), Render(s[1..]);
      assert NoMarkers(e);
      forall i | 0 <= i < |e + rest|
        ensures (e + rest)[i] != OpenMarker && (e + rest)[i] != CloseMarker
      {
        if i >= |e| { assert (e + rest)[i] == rest[i - |e|]; }
      }
    }
  }

  lemma {:induction false} RenderKeepsPlainText(s: string)
    ensures NoMarkers(s) ==> Render(s) == s
  {
    if s != [] && NoMarkers(s) {
      assert NoMarkers(s[1..]) by {
        forall i | 0 <= i < |s[1..]| ensures s[1..][i] != OpenMarker && s[1..][i] != CloseMarker {
          assert s[1..][i] == s[i + 1];
        }
      }
      RenderKeepsPlainText(s[1..]);
    }
  }

  /** Translation works character by character: the translation of a
      concatenation is the concatenation of the translations, so every
      character other than a marker keeps its place in the output. */
  lemma {:induction false} RenderAppend(a: string, b: string)
    ensures Render(a + b) == Render(a) + Render(b)
  {
    if a != [] {
      assert (a + b)[0] == a[0] && (a + b)[1..] == a[1..] + b;
      RenderAppend(a[1..], b);
    } else {
      assert a + b == b;
    }
  }
}
