/** The scraping stage: fetch a listing page, pick out every product card
    and read its title, description and price into a table of text cells. */
module Scraper {
  import opened Results
  import opened Text
  import opened Html
  import opened Tables

  newtype Byte = x: int | 0 <= x < 256

  /** What an HTTP GET answered: the status code and the raw body. */
  datatype Response = Response(status: int, body: seq<Byte>)

  /** One scraped product, every field the stripped text of its element. */
  datatype Product = Product(title: string, description: string, price: string)

  /** `fetch_page`: the body of a 200 answer, a failure naming the URL for
      any other status. */
  function Fetch(url: string, response: Response): (r: Result<seq<Byte>>)
    ensures r.Ok? <==> response.status == 200
    ensures r.Ok? ==> r.value == response.body
    ensures r.Err? ==> r.error == FetchFailed(url)
  {
    if response.status == 200 then Ok(response.body) else Err(FetchFailed(url))
  }

  /** `block.find(tag, class_=cls).text.strip()`; a missing element is the
      AttributeError of reading `.text` from None. */
  function Field(block: Node, tag: string, cls: string): (r: Result<string>)
    ensures r.Ok? <==> Find(block, tag, cls).Some?
    ensures r.Ok? ==> Trimmed(r.value)
    ensures r.Err? ==> r.error == MissingField(tag, cls)
  {
    match Find(block, tag, cls)
    case None => Err(MissingField(tag, cls))
    case Some(e) => Ok(Strip(TextOf(e)))
  }

  const TitleTag: string := "a"
  const TitleClass: string := "title"
  const DescriptionTag: string := "p"
  const DescriptionClass: string := "description"
  const PriceTag: string := "h4"
  const PriceClass: string := "price"

  /** Every element `parse_product` looks for is present in the card. */
  predicate Complete(block: Node) {
    && Find(block, TitleTag, TitleClass).Some?
    && Find(block, DescriptionTag, DescriptionClass).Some?
    && Find(block, PriceTag, PriceClass).Some?
  }

  /** `parse_product`: title, then description, then price; the first
      missing element aborts the card. */
  function ParseProduct(block: Node): (r: Result<Product>)
    ensures r.Ok? <==> Complete(block)
    ensures r.Ok? ==>
      && r.value.title == Strip(TextOf(Find(block, TitleTag, TitleClass).node))
      && r.value.description == Strip(TextOf(Find(block, DescriptionTag, DescriptionClass).node))
      && r.value.price == Strip(TextOf(Find(block, PriceTag, PriceClass).node))
    ensures r.Err? ==>
      r.error == (if Find(block, TitleTag, TitleClass).None? then MissingField(TitleTag, TitleClass)
                  else if Find(block, DescriptionTag, DescriptionClass).None? then MissingField(DescriptionTag, DescriptionClass)
                  else MissingField(PriceTag, PriceClass))
  {
    var title :- Field(block, TitleTag, TitleClass);
    var description :- Field(block, DescriptionTag, DescriptionClass);
    var price :- Field(block, PriceTag, PriceClass);
    Ok(Product(title, description, price))
  }

  /** Every field of a parsed product is already stripped, so stripping it
      again changes nothing. */
  lemma ParsedFieldsStripped(block: Node)
    requires ParseProduct(block).Ok?
    ensures var p := ParseProduct(block).value;
      Strip(p.title) == p.title && Strip(p.description) == p.description && Strip(p.price) == p.price
  {
    var p := ParseProduct(block).value;
    assert Field(block, TitleTag, TitleClass) == Ok(p.title);
    assert Field(block, DescriptionTag, DescriptionClass) == Ok(p.description);
    assert Field(block, PriceTag, PriceClass) == Ok(p.price);
    StripTrimmed(p.title);
    StripTrimmed(p.description);
    StripTrimmed(p.price);
  }

  /** The card's dictionary as a row; its keys are the three column names. */
  function AsRow(p: Product): (r: Row)
    ensures r.Keys == {"title", "description", "price"}
    ensures r["title"] == Str(p.title) && r["description"] == Str(p.description)
    ensures r[PriceColumn] == Str(p.price)
  {
    map["title" := Str(p.title), "description" := Str(p.description), "price" := Str(p.price)]
  }

  const ProductColumns: seq<string> := ["title", "description", "price"]

  /** `pd.DataFrame(records)`: one text row per product, in order; the
      columns are the dictionaries' keys, and an empty list gives a frame
      with no columns at all. */
  function ToTable(products: seq<Product>): (r: Table)
    ensures WellFormed(r)
    ensures |r.rows| == |products|
    ensures r.columns == (if products == [] then [] else ProductColumns)
    ensures forall i :: 0 <= i < |products| ==> r.rows[i] == AsRow(products[i])
  {
    if products == [] then Table([], [])
    else
      assert (set c | c in ProductColumns) == {"title", "description", "price"} by {
        assert ProductColumns[0] == "title" && ProductColumns[1] == "description" && ProductColumns[2] == "price";
      }
      Table(ProductColumns, seq(|products|, i requires 0 <= i < |products| => AsRow(products[i])))
  }

  /** The loop of `scrape`, for any per-item parser: parse every item in
      order, the first failing item aborting the whole loop. */
  method ParseEach<X, Y>(items: seq<X>, parse: X -> Result<Y>) returns (r: Result<seq<Y>>)
    ensures r.Ok? <==> forall i :: 0 <= i < |items| ==> parse(items[i]).Ok?
    ensures r.Ok? ==> |r.value| == |items|
    ensures r.Ok? ==> forall i :: 0 <= i < |items| ==> r.value[i] == parse(items[i]).value
    ensures r.Err? ==>
      exists k :: (0 <= k < |items| && parse(items[k]) == Err(r.error)
                   && forall j :: 0 <= j < k ==> parse(items[j]).Ok?)
  {
    var done: seq<Y> := [];
    for i := 0 to |items|
      invariant |done| == i
      invariant forall j :: 0 <= j < i ==> parse(items[j]).Ok?
      invariant forall j :: 0 <= j < i ==> done[j] == parse(items[j]).value
    {
      var p := parse(items[i]);
      if p.Err? {
        return Err(p.error);
      }
      done := done + [p.value];
    }
    return Ok(done);
  }

  /** The cards of a page: every `div` of class `thumbnail`. */
  function Cards(page: Node): seq<Node> {
    FindAll(page, "div", "thumbnail")
  }

  /** `scrape`: fetch, parse the body with the given HTML parser, then read
      every card into one row. A page without cards gives an empty table. */
  method Scrape(url: string, response: Response, parse: seq<Byte> -> Node) returns (r: Result<Table>)
    ensures response.status != 200 ==> r == Err(FetchFailed(url))
    ensures r.Ok? ==> response.status == 200 && WellFormed(r.value)
    ensures r.Ok? ==> |r.value.rows| == |Cards(parse(response.body))|
    ensures response.status == 200 && Cards(parse(response.body)) == [] ==> r == Ok(Table([], []))
    ensures r.Ok? ==> forall i :: 0 <= i < |r.value.rows| ==>
      ParseProduct(Cards(parse(response.body))[i]).Ok? &&
      r.value.rows[i] == AsRow(ParseProduct(Cards(parse(response.body))[i]).value)
    ensures response.status == 200 ==>
      (r.Ok? <==> forall b :: b in Cards(parse(response.body)) ==> Complete(b))
    ensures response.status == 200 && r.Err? ==>
      exists k :: (0 <= k < |Cards(parse(response.body))|
                   && ParseProduct(Cards(parse(response.body))[k]) == Err(r.error)
                   && forall j :: 0 <= j < k ==> ParseProduct(Cards(parse(response.body))[j]).Ok?)
  {
    var content :- Fetch(url, response);
    var page := parse(content);
    var blocks := Cards(page);
    var products :- ParseEach(blocks, ParseProduct);
    r := Ok(ToTable(products));
  }

  /** A product card as the listing page renders it, its title padded with
      whitespace. */
  function ExampleCard(): Node {
    Element("div", ["thumbnail"], [
      Element("a", ["title"], [TextNode("\n  Widget  ")]),
      Element("p", ["description"], [TextNode("Small")]),
      Element("h4", ["price", "pull-right"], [TextNode("$9,99")])])
  }

  /** Worked example: the card yields its stripped title, its description
      and its price text exactly as shown. */
  lemma ExampleCardParses()
    ensures ParseProduct(ExampleCard()) == Ok(Product("Widget", "Small", "$9,99"))
  {
    ExampleCardFinds();
    StripsExampleTexts();
  }

  lemma StripsExampleTexts()
    ensures Strip("\n  Widget  ") == "Widget"
    ensures Strip("Small") == "Small"
    ensures Strip("$9,99") == "$9,99"
  {
    StripsTitle();
    StripsDescription();
    StripsPrice();
  }

  lemma StripsDescription()
    ensures Strip("Small") == "Small"
  {
    var s := "Small";
    assert !IsSpace(s[0]) && !IsSpace(s[|s| - 1]);
    StripTrimmed(s);
  }

  lemma StripsPrice()
    ensures Strip("$9,99") == "$9,99"
  {
    var s := "$9,99";
    assert !IsSpace(s[0]) && !IsSpace(s[|s| - 1]);
    StripTrimmed(s);
  }

  lemma StripsTitle()
    ensures Strip("\n  Widget  ") == "Widget"
  {
    var pre, core, post := "\n  ", "Widget", "  ";
    assert AllSpace(pre) && AllSpace(post);
    assert Trimmed(core);
    StripUnpads(pre, core, post);
    assert pre + core + post == "\n  Widget  ";
  }

  lemma ExampleCardFinds()
    ensures Find(ExampleCard(), TitleTag, TitleClass).Some?
    ensures TextOf(Find(ExampleCard(), TitleTag, TitleClass).node) == "\n  Widget  "
    ensures Find(ExampleCard(), DescriptionTag, DescriptionClass).Some?
    ensures TextOf(Find(ExampleCard(), DescriptionTag, DescriptionClass).node) == "Small"
    ensures Find(ExampleCard(), PriceTag, PriceClass).Some?
    ensures TextOf(Find(ExampleCard(), PriceTag, PriceClass).node) == "$9,99"
  {
    var kids := ExampleCard().children;
    assert kids[1..][1..][1..] == [];
    assert TextOfAll([TextNode("Small")][1..]) == "";
  }
}
