/** Turning the product tiles of the category page into product records:
    keep only tiles that have a title, a price and a link, normalise the
    price text, resolve the link against the shop's origin. Selecting the
    tiles in the markup and converting the normalised text to a number are
    done by libraries outside this model: tiles arrive as `Candidate` values
    and the conversion is the parameter `parse`. */
module Extractor {
  import opened Snapshots

  datatype Option<T> = None | Some(value: T)

  /** The anchor element of a tile, which may lack an `href` attribute. */
  datatype Anchor = Anchor(href: Option<string>)

  /** One product tile: the text of its title element, the text of its price
      element and its anchor element, each absent when the tile has none. */
  datatype Candidate = Candidate(title: Option<string>, priceText: Option<string>, anchor: Option<Anchor>)

  /** Why extraction stops: a price text the conversion rejects, or an anchor
      without an `href`. */
  datatype Error = MalformedPrice(text: string) | MissingHref

  datatype Result<T> = Ok(value: T) | Err(error: Error)

  /** The origin every product link is resolved against. */
  const Origin: string := "https://www.tesco.ie"

  // ---------------------------------------------------------------------
  // Price text

  /** `s` with every occurrence of `c` deleted. */
  function RemoveAll(s: string, c: char): (r: string)
    ensures c !in r
  {
    if s == [] then []
    else (if s[0] == c then [] else [s[0]]) + RemoveAll(s[1..], c)
  }

  /** `s` with every occurrence of `a` replaced by `b`. */
  function ReplaceAll(s: string, a: char, b: char): (r: string)
    ensures |r| == |s|
    ensures forall i :: 0 <= i < |s| ==> r[i] == if s[i] == a then b else s[i]
  {
    if s == [] then []
    else [if s[0] == a then b else s[0]] + ReplaceAll(s[1..], a, b)
  }

  /** The price text as handed to the number conversion: the euro sign
      removed, the decimal comma turned into a decimal point. */
  function NormalizePrice(text: string): (r: string)
    ensures '€' !in r && ',' !in r
  {
    ReplaceAll(RemoveAll(text, '€'), ',', '.')
  }

  /** Deletion keeps every other character, as often as it occurs. */
  lemma {:induction false} RemoveAllMultiset(s: string, c: char)
    ensures multiset(RemoveAll(s, c)) == multiset(s)[c := 0]
  {
    if s != [] {
      RemoveAllMultiset(s[1..], c);
      assert s == [s[0]] + s[1..];
    }
  }

  /** Deletion keeps the order of the remaining characters. */
  lemma {:induction false} RemoveAllAppend(s: string, t: string, c: char)
    ensures RemoveAll(s + t, c) == RemoveAll(s, c) + RemoveAll(t, c)
  {
    if s == [] {
      assert s + t == t;
    } else {
      assert (s + t)[0] == s[0];
      assert (s + t)[1..] == s[1..] + t;
      RemoveAllAppend(s[1..], t, c);
    }
  }

  /** Replacement keeps the order of the characters. */
  lemma {:induction false} ReplaceAllAppend(u: string, v: string, a: char, b: char)
    ensures ReplaceAll(u + v, a, b) == ReplaceAll(u, a, b) + ReplaceAll(v, a, b)
  {
    if u == [] {
      assert u + v == v;
    } else {
      assert (u + v)[0] == u[0];
      assert (u + v)[1..] == u[1..] + v;
      ReplaceAllAppend(u[1..], v, a, b);
    }
  }

  /** Normalisation works character by character: it distributes over
      concatenation. */
  lemma NormalizePriceAppend(s: string, t: string)
    ensures NormalizePrice(s + t) == NormalizePrice(s) + NormalizePrice(t)
  {
    RemoveAllAppend(s, t, '€');
    ReplaceAllAppend(RemoveAll(s, '€'), RemoveAll(t, '€'), ',', '.');
  }

  /** On one character, normalisation drops the euro sign, turns a comma
      into a point and keeps anything else. */
  lemma NormalizePriceChar(ch: char)
    ensures NormalizePrice([ch]) == if ch == '€' then "" else if ch == ',' then "." else [ch]
  {
    assert [ch][1..] == [];
    var removed := RemoveAll([ch], '€');
    assert removed == (if ch == '€' then [] else [ch]) + RemoveAll([], '€');
    if ch != '€' {
      assert removed == [ch];
      assert ReplaceAll(removed, ',', '.') == [if ch == ',' then '.' else ch] + ReplaceAll([], ',', '.');
    }
  }

  /** Normalising twice changes nothing more. */
  lemma NormalizePriceIdempotent(text: string)
    ensures NormalizePrice(NormalizePrice(text)) == NormalizePrice(text)
  {
    var r := NormalizePrice(text);
    assert RemoveAll(r, '€') == r by { RemoveAllAbsent(r, '€'); }
    assert ReplaceAll(r, ',', '.') == r;
  }

  /** Deleting a character that does not occur changes nothing. */
  lemma {:induction false} RemoveAllAbsent(s: string, c: char)
    requires c !in s
    ensures RemoveAll(s, c) == s
  {
    if s != [] {
      assert s[0] != c;
      RemoveAllAbsent(s[1..], c);
    }
  }

  /** The localised price "€1,99" becomes "1.99". */
  lemma NormalizeExample()
    ensures NormalizePrice("€1,99") == "1.99"
  {
    var removed := RemoveAll("€1,99", '€');
    assert removed == "1,99" by {
      assert "€1,99"[1..] == "1,99";
      RemoveAllAbsent("1,99", '€');
    }
    var replaced := ReplaceAll("1,99", ',', '.');
    assert replaced[0] == '1' && replaced[1] == '.' && replaced[2] == '9' && replaced[3] == '9';
    assert replaced == "1.99";
  }

  // ---------------------------------------------------------------------
  // Links

  /** The absolute link of a product: the shop origin followed by the href. */
  function ResolveLink(href: string): (link: string)
    ensures |link| == |Origin| + |href|
    ensures link[..|Origin|] == Origin && link[|Origin|..] == href
  {
    Origin + href
  }

  /** Different hrefs never resolve to the same link. */
  lemma ResolveLinkInjective(h1: string, h2: string)
    requires ResolveLink(h1) == ResolveLink(h2)
    ensures h1 == h2
  {
    assert h1 == ResolveLink(h1)[|Origin|..];
  }

  // ---------------------------------------------------------------------
  // Extraction

  /** A tile is kept when its title, price and anchor are all present. */
  predicate Complete(c: Candidate)
  {
    c.title.Some? && c.priceText.Some? && c.anchor.Some?
  }

  /** The product a complete tile stands for, or the error that aborts the
      run: the price is converted before the href is read. */
  function ExtractOne(c: Candidate, parse: string -> Option<int>): (r: Result<Option<Product>>)
    ensures r == Ok(None) <==> !Complete(c)
    ensures r.Err? <==> Fails(c, parse)
    ensures r.Ok? && r.value.Some? ==> MadeFrom(r.value.value, c, parse)
  {
    if !Complete(c) then Ok(None)
    else
      var price := parse(NormalizePrice(c.priceText.value));
      if price.None? then Err(MalformedPrice(c.priceText.value))
      else if c.anchor.value.href.None? then Err(MissingHref)
      else Ok(Some(Product(c.title.value, price.value, ResolveLink(c.anchor.value.href.value))))
  }

  /** The products of `candidates` in page order, or the error of the first
      tile that fails. */
  function Extract(candidates: seq<Candidate>, parse: string -> Option<int>): Result<Snapshot>
  {
    if candidates == [] then Ok([])
    else
      match Extract(candidates[..|candidates| - 1], parse)
      case Err(e) => Err(e)
      case Ok(products) =>
        match ExtractOne(candidates[|candidates| - 1], parse)
        case Err(e) => Err(e)
        case Ok(None) => Ok(products)
        case Ok(Some(p)) => Ok(products + [p])
  }

  /** The complete tiles of `candidates`, in page order. */
  function CompleteCandidates(candidates: seq<Candidate>): (r: seq<Candidate>)
    ensures |r| <= |candidates|
    ensures forall c :: c in r <==> c in candidates && Complete(c)
  {
    if candidates == [] then []
    else
      var init, last := candidates[..|candidates| - 1], candidates[|candidates| - 1];
      assert candidates == init + [last];
      CompleteCandidates(init) + (if Complete(last) then [last] else [])
  }

  /** The complete tiles of a concatenation are those of each part, one
      after the other: the filter keeps page order. */
  lemma {:induction false} CompleteCandidatesAppend(x: seq<Candidate>, y: seq<Candidate>)
    ensures CompleteCandidates(x + y) == CompleteCandidates(x) + CompleteCandidates(y)
  {
    if y == [] {
      assert x + y == x;
    } else {
      var init, last := y[..|y| - 1], y[|y| - 1];
      assert y == init + [last];
      assert (x + y)[..|x + y| - 1] == x + init;
      assert (x + y)[|x + y| - 1] == last;
      CompleteCandidatesAppend(x, init);
    }
  }

  /** The product made from a complete tile. */
  predicate MadeFrom(p: Product, c: Candidate, parse: string -> Option<int>)
  {
    && Complete(c)
    && c.anchor.value.href.Some?
    && p.name == c.title.value
    && parse(NormalizePrice(c.priceText.value)) == Some(p.price)
    && p.link == ResolveLink(c.anchor.value.href.value)
  }

  /** A tile that makes extraction fail. */
  predicate Fails(c: Candidate, parse: string -> Option<int>)
  {
    Complete(c) && (parse(NormalizePrice(c.priceText.value)).None? || c.anchor.value.href.None?)
  }

  /** Extraction succeeds exactly when no complete tile has a price the
      conversion rejects or an anchor without href. */
  lemma {:induction false} ExtractSucceedsIff(candidates: seq<Candidate>, parse: string -> Option<int>)
    ensures Extract(candidates, parse).Ok? <==> forall c :: c in candidates ==> !Fails(c, parse)
  {
    if candidates != [] {
      var init, last := candidates[..|candidates| - 1], candidates[|candidates| - 1];
      assert candidates == init + [last];
      ExtractSucceedsIff(init, parse);
      assert ExtractOne(last, parse).Ok? <==> !Fails(last, parse);
      assert (forall c :: c in candidates ==> !Fails(c, parse)) <==>
        (forall c :: c in init ==> !Fails(c, parse)) && !Fails(last, parse);
    }
  }

  /** A successful extraction yields one product per complete tile, in page
      order, each made from its tile. */
  lemma {:induction false} ExtractProducts(candidates: seq<Candidate>, parse: string -> Option<int>)
    requires Extract(candidates, parse).Ok?
    ensures var products, kept := Extract(candidates, parse).value, CompleteCandidates(candidates);
      |products| == |kept| && forall i :: 0 <= i < |kept| ==> MadeFrom(products[i], kept[i], parse)
  {
    if candidates != [] {
      var init, last := candidates[..|candidates| - 1], candidates[|candidates| - 1];
      ExtractProducts(init, parse);
      var before, keptBefore := Extract(init, parse).value, CompleteCandidates(init);
      var products, kept := Extract(candidates, parse).value, CompleteCandidates(candidates);
      if Complete(last) {
        var p := ExtractOne(last, parse).value.value;
        assert products == before + [p];
        assert kept == keptBefore + [last];
        assert MadeFrom(p, last, parse);
        forall i | 0 <= i < |kept| ensures MadeFrom(products[i], kept[i], parse) {
          if i < |keptBefore| {
            assert products[i] == before[i] && kept[i] == keptBefore[i];
          }
        }
      } else {
        assert products == before;
        assert kept == keptBefore;
      }
    }
  }

  /** Extraction stops at the first failing tile: once a prefix fails, the
      whole list fails with the same error. */
  lemma {:induction false} ExtractErrorPersists(candidates: seq<Candidate>, n: int, parse: string -> Option<int>)
    requires 0 <= n <= |candidates|
    requires Extract(candidates[..n], parse).Err?
    ensures Extract(candidates, parse) == Extract(candidates[..n], parse)
    decreases |candidates| - n
  {
    if n < |candidates| {
      assert candidates[..n + 1][..n] == candidates[..n];
      ExtractErrorPersists(candidates, n + 1, parse);
    } else {
      assert candidates[..n] == candidates;
    }
  }

  /** Walks the tiles in page order and appends a product for each complete
      one; the first malformed price or missing href aborts the walk. */
  method FetchProducts(candidates: seq<Candidate>, parse: string -> Option<int>) returns (r: Result<Snapshot>)
    ensures r == Extract(candidates, parse)
  {
    var products: Snapshot := [];
    for i := 0 to |candidates|
      invariant Extract(candidates[..i], parse) == Ok(products)
    {
      var item := candidates[i];
      assert candidates[..i + 1][..i] == candidates[..i];
      assert candidates[..i + 1][i] == item;
      if item.title.Some? && item.priceText.Some? && item.anchor.Some? {
        var name := item.title.value;
        var price := parse(NormalizePrice(item.priceText.value));
        if price.None? {
          ExtractErrorPersists(candidates, i + 1, parse);
          return Err(MalformedPrice(item.priceText.value));
        }
        if item.anchor.value.href.None? {
          ExtractErrorPersists(candidates, i + 1, parse);
          return Err(MissingHref);
        }
        var link := ResolveLink(item.anchor.value.href.value);
        products := products + [Product(name, price.value, link)];
      }
    }
    assert candidates[..|candidates|] == candidates;
    r := Ok(products);
  }
}
