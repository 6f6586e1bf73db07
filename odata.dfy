/**
 * How the search service reads back the author filter that the handler
 * builds. In an OData filter a string literal is enclosed in single quotes,
 * and a single quote inside it is written as two single quotes. The handler
 * interpolates the facet value between the quotes as it is, so the value
 * the service sees is the facet exactly when the facet holds no quote.
 */
module OData {
  import opened Wrappers

  const Quote: char := '\''

  /** The text in front of the facet value in `metadata_author eq '<facet>'`. */
  const AuthorFilterPrefix: string := "metadata_author eq '"

  /**
   * Reads the rest of a string literal whose opening quote has been consumed:
   * the value it denotes, or `None` when the literal is unterminated or
   * something follows its closing quote.
   */
  function LiteralValue(t: string): (r: Option<string>)
    ensures r.Some? ==> |r.value| < |t|
    decreases |t|
  {
    if t == [] then None
    else if t[0] != Quote then
      match LiteralValue(t[1..])
      case Some(v) => Some([t[0]] + v)
      case None => None
    else if |t| == 1 then Some([])
    else if t[1] == Quote then
      match LiteralValue(t[2..])
      case Some(v) => Some([Quote] + v)
      case None => None
    else None
  }

  /** The author value a filter of the form `metadata_author eq '...'` compares with, if it is one. */
  function AuthorOf(filter: string): (r: Option<string>)
    ensures r.Some? ==> |AuthorFilterPrefix| < |filter|
  {
    if |AuthorFilterPrefix| <= |filter| && filter[..|AuthorFilterPrefix|] == AuthorFilterPrefix
    then LiteralValue(filter[|AuthorFilterPrefix|..])
    else None
  }

  /** A quote-free text followed by the closing quote reads back as that text. */
  lemma {:induction false} LiteralOfQuoteFree(v: string)
    requires Quote !in v
    ensures LiteralValue(v + [Quote]) == Some(v)
  {
    if v != [] {
      assert (v + [Quote])[1..] == v[1..] + [Quote];
      LiteralOfQuoteFree(v[1..]);
      assert [v[0]] + v[1..] == v;
    }
  }

  /**
   * If a literal body reads back as a value as long as the body less its
   * closing quote, no doubled quote was consumed: the body holds no quote
   * before its last character.
   */
  lemma {:induction false} FullLengthLiteralIsQuoteFree(t: string)
    requires LiteralValue(t).Some? && |LiteralValue(t).value| == |t| - 1
    ensures Quote !in t[..|t| - 1]
  {
    if t[0] != Quote {
      FullLengthLiteralIsQuoteFree(t[1..]);
      assert t[..|t| - 1] == [t[0]] + t[1..][..|t| - 2];
    }
  }

  /** The filter carries the facet as its author value exactly when the facet holds no quote. */
  lemma AuthorRecoveredIffQuoteFree(facet: string)
    ensures AuthorOf(AuthorFilterPrefix + facet + [Quote]) == Some(facet) <==> Quote !in facet
  {
    var filter := AuthorFilterPrefix + facet + [Quote];
    assert filter[..|AuthorFilterPrefix|] == AuthorFilterPrefix;
    assert filter[|AuthorFilterPrefix|..] == facet + [Quote];
    if Quote !in facet {
      LiteralOfQuoteFree(facet);
    } else if AuthorOf(filter) == Some(facet) {
      FullLengthLiteralIsQuoteFree(facet + [Quote]);
      assert false;
    }
  }
}
