/**
 * The backlog strip and its cards (src/components/backlog/BacklogStrip.tsx,
 * src/components/backlog/BacklogCard.tsx): the text truncation and the
 * product-based background of a card, the strip's totals and its
 * collapse toggle.
 */
module Backlog {
  import opened JsStrings
  import opened JsValues
  import opened DealModel
  import Seqs

  /**
   * `truncate(text, maxLength)`: 'N/A' for null or '', the text itself
   * when it fits, otherwise its first `maxLength` characters and '...'.
   */
  function Truncate(text: Option<string>, maxLength: nat): (r: string)
    ensures text.None? || text == Some("") ==> r == "N/A"
    ensures text.Some? && text.value != "" && |text.value| <= maxLength ==> r == text.value
    ensures text.Some? && |text.value| > maxLength ==>
      r == text.value[..maxLength] + "..." && |r| == maxLength + 3
  {
    if text.None? || text.value == "" then "N/A"
    else if |text.value| > maxLength then text.value[..maxLength] + "..."
    else text.value
  }

  /** A truncated text is a prefix of the original, with the ellipsis when something was cut. */
  lemma TruncateKeepsPrefix(text: string, maxLength: nat)
    requires text != ""
    ensures var r := Truncate(Some(text), maxLength);
      (r == text) || (|text| > maxLength && r[..maxLength] == text[..maxLength] && r[maxLength..] == "...")
  {
  }

  /** The product spellings the cards recognise, after lower-casing and trimming. */
  const ListadoSpellings: seq<string> := ["listado"]
  const CetipadoSpellings: seq<string> := ["cetipado"]
  const RendaSpellings: seq<string> := ["r+", "r +", "renda+"]

  /**
   * The retail-bond spellings as written in the source: the accented
   * 'título ret' is stored mis-encoded ('t√≠tulo ret'), so it names no
   * spelling a user types.
   */
  const TituloSpellingsAsWritten: seq<string> := ["tt. ret.", "tt ret", "t\U{221A}\U{2260}tulo ret", "titulo ret"]

  /** The retail-bond spellings with the accented one spelt correctly. */
  const TituloSpellings: seq<string> := ["tt. ret.", "tt ret", "título ret", "titulo ret"]

  /** The switch on the normalised product, with the retail-bond spellings as a parameter. */
  function Classify(p: string, titulo: seq<string>): (r: string)
    ensures r == "bg-white" <==> p !in ListadoSpellings + CetipadoSpellings + RendaSpellings + titulo
    ensures p in titulo && p !in ListadoSpellings + CetipadoSpellings + RendaSpellings ==> r == "bg-yellow-100"
  {
    if p in ListadoSpellings then "bg-blue-100"
    else if p in CetipadoSpellings then "bg-green-100"
    else if p in RendaSpellings then "bg-purple-100"
    else if p in titulo then "bg-yellow-100"
    else "bg-white"
  }

  /** `produto.toLowerCase().trim()`. */
  function Normalize(produto: string): string {
    Trim(Lower(produto))
  }

  /** `getBackgroundColor`, with the retail-bond spellings as a parameter: white for no product. */
  function BackgroundFor(produto: Option<string>, titulo: seq<string>): (r: string)
    ensures produto.None? || produto == Some("") ==> r == "bg-white"
    ensures produto.Some? && produto.value != "" ==> r == Classify(Normalize(produto.value), titulo)
  {
    if produto.None? || produto.value == "" then "bg-white"
    else Classify(Normalize(produto.value), titulo)
  }

  /** `getBackgroundColor` as written. */
  function BackgroundColorAsWritten(produto: Option<string>): (r: string)
    ensures produto.None? || produto == Some("") ==> r == "bg-white"
  {
    BackgroundFor(produto, TituloSpellingsAsWritten)
  }

  /** `getBackgroundColor` with 'título ret' recognised, as its neighbour 'titulo ret' is. */
  function BackgroundColor(produto: Option<string>): (r: string)
    ensures produto.None? || produto == Some("") ==> r == "bg-white"
    ensures r in ["bg-white", "bg-blue-100", "bg-green-100", "bg-purple-100", "bg-yellow-100"]
  {
    BackgroundFor(produto, TituloSpellings)
  }

  lemma NormalizeTituloRet()
    ensures Normalize("Título Ret") == "título ret"
  {
    assert Lower("Título Ret") == "título ret";
    TrimNoop("título ret");
  }

  lemma TituloNotWritten()
    ensures "título ret" !in TituloSpellingsAsWritten
    ensures "título ret" !in ListadoSpellings + CetipadoSpellings + RendaSpellings
  {
    assert "título ret"[1] == 'í';
  }

  /** The accented spelling falls through to white as written, and is yellow once spelt correctly. */
  lemma TituloRetMissed()
    ensures BackgroundColorAsWritten(Some("Título Ret")) == "bg-white"
    ensures BackgroundColor(Some("Título Ret")) == "bg-yellow-100"
  {
    NormalizeTituloRet();
    WrittenMissesTitulo();
    CorrectedFindsTitulo();
    BackgroundOfNormalized("Título Ret", "título ret", TituloSpellingsAsWritten);
    BackgroundOfNormalized("Título Ret", "título ret", TituloSpellings);
  }

  lemma BackgroundOfNormalized(produto: string, n: string, titulo: seq<string>)
    requires produto != "" && Normalize(produto) == n
    ensures BackgroundFor(Some(produto), titulo) == Classify(n, titulo)
  {
  }

  lemma WrittenMissesTitulo()
    ensures Classify("título ret", TituloSpellingsAsWritten) == "bg-white"
  {
    TituloNotWritten();
  }

  lemma CorrectedFindsTitulo()
    ensures Classify("título ret", TituloSpellings) == "bg-yellow-100"
  {
    TituloNotWritten();
    assert TituloSpellings[2] == "título ret";
  }

  /** The corrected and the written switch agree on every product but the accented spelling. */
  lemma BackgroundOnlyTituloDiffers(produto: Option<string>)
    requires produto.None? || Normalize(produto.value) != "título ret"
    requires produto.None? || Normalize(produto.value) != "t\U{221A}\U{2260}tulo ret"
    ensures BackgroundColor(produto) == BackgroundColorAsWritten(produto)
  {
    if produto.Some? && produto.value != "" {
      ClassifyOnlyTituloDiffers(Normalize(produto.value));
    }
  }

  lemma ClassifyOnlyTituloDiffers(p: string)
    requires p != "título ret" && p != "t\U{221A}\U{2260}tulo ret"
    ensures Classify(p, TituloSpellings) == Classify(p, TituloSpellingsAsWritten)
  {
    assert p in TituloSpellings <==> p in TituloSpellingsAsWritten;
  }

  lemma LowerCharIdempotent(c: char)
    ensures LowerChar(LowerChar(c)) == LowerChar(c)
  {
  }

  /** Lower-casing twice is lower-casing once. */
  lemma LowerIdempotent(s: string)
    ensures Lower(Lower(s)) == Lower(s)
  {
    forall i | 0 <= i < |s| ensures Lower(Lower(s))[i] == Lower(s)[i] {
      LowerCharIdempotent(s[i]);
    }
  }

  /** The background ignores case: a product and its lower-cased spelling get the same colour. */
  lemma BackgroundIgnoresCase(produto: string)
    ensures BackgroundColor(Some(Lower(produto))) == BackgroundColor(Some(produto))
  {
    LowerIdempotent(produto);
    assert |Lower(produto)| == |produto|;
    assert Normalize(Lower(produto)) == Normalize(produto);
  }

  /** The background ignores surrounding spaces: ' p ' gets the colour of `p`. */
  lemma BackgroundIgnoresPadding(produto: string)
    requires produto != "" && !IsWhitespace(produto[0]) && !IsWhitespace(produto[|produto| - 1])
    ensures BackgroundColor(Some(" " + produto + " ")) == BackgroundColor(Some(produto))
  {
    NormalizePadded(produto);
  }

  lemma NormalizePadded(produto: string)
    requires produto != "" && !IsWhitespace(produto[0]) && !IsWhitespace(produto[|produto| - 1])
    ensures Normalize(" " + produto + " ") == Normalize(produto)
  {
    var l := Lower(produto);
    LowerPadded(produto);
    LowerCharKeepsNonSpace(produto[0]);
    LowerCharKeepsNonSpace(produto[|produto| - 1]);
    assert l[0] == LowerChar(produto[0]) && l[|l| - 1] == LowerChar(produto[|produto| - 1]);
    TrimPadded(l);
    TrimNoop(l);
  }

  lemma LowerPadded(s: string)
    ensures Lower(" " + s + " ") == " " + Lower(s) + " "
  {
  }

  lemma LowerCharKeepsNonSpace(c: char)
    requires !IsWhitespace(c)
    ensures !IsWhitespace(LowerChar(c))
  {
  }

  /** A product that lower-cases and trims to 'r+', 'r +' or 'renda+' gets the purple card. */
  lemma RendaSpelling(produto: string)
    requires produto != "" && Normalize(produto) in RendaSpellings
    ensures BackgroundColor(Some(produto)) == "bg-purple-100"
  {
    RendaNotOtherSpelling();
  }

  lemma RendaNotOtherSpelling()
    ensures forall i :: 0 <= i < |RendaSpellings| ==> RendaSpellings[i] !in ListadoSpellings + CetipadoSpellings
  {
  }

  /** `stats`: count, volume (`oferta_base || volume_liquidado || 0`) and potential revenue, as two `reduce`s. */
  function StripStats(deals: seq<Deal>): (r: SummaryStats)
    ensures r.count == |deals|
    ensures r == CalculateStats(deals)
  {
    SummaryStats(|deals|, Seqs.Sum(deals, Volume), Seqs.Sum(deals, Revenue))
  }

  /** One more deal in the backlog adds one to the count and its volume and revenue to the sums. */
  lemma StripStatsSnoc(deals: seq<Deal>, d: Deal)
    ensures StripStats(deals + [d]) ==
      SummaryStats(|deals| + 1, StripStats(deals).volume + Volume(d), StripStats(deals).revenue + Revenue(d))
  {
    Seqs.SumAppend(deals, [d], Volume);
    Seqs.SumAppend(deals, [d], Revenue);
    assert [d][..0] == [];
  }

  /** The strip's collapse state. */
  class Strip {
    var isCollapsed: bool

    /** `useState(false)`: the strip starts open. */
    constructor()
      ensures !isCollapsed
    {
      isCollapsed := false;
    }

    /** The chevron button: `setIsCollapsed(!isCollapsed)`. */
    method Toggle()
      modifies this
      ensures isCollapsed == !old(isCollapsed)
    {
      isCollapsed := !isCollapsed;
    }
  }
}
