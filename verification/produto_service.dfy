/** Product service: find, and search, which resolves category ids and then runs the derived
    query "distinct products whose name contains the argument and that belong to one of the
    resolved categories", one page of it. */
module ProdutoService {
  import opened Wrappers
  import opened Exceptions
  import opened Repository
  import opened Domain
  import opened Text

  /** One page of a query result: the slice, the size of the whole result, the page index
      and the page size that were asked for. */
  datatype Page<T> = Page(content: seq<T>, totalElements: nat, number: nat, size: nat)

  /** The values Sort.Direction.valueOf accepts: the enum's constant names, exactly. */
  const DIRECTIONS: set<string> := {"ASC", "DESC"}

  ghost predicate NoDuplicates<T>(s: seq<T>) {
    forall i, j :: 0 <= i < j < |s| ==> s[i] != s[j]
  }

  /** `a` is `b` with some elements left out, the rest in their original order. */
  ghost predicate Subsequence<T>(a: seq<T>, b: seq<T>)
    decreases |b|
  {
    if a == [] then true
    else if b == [] then false
    else (a[0] == b[0] && Subsequence(a[1..], b[1..])) || Subsequence(a, b[1..])
  }

  function Min(a: int, b: int): int {
    if a <= b then a else b
  }

  /** find: the stored product, or not-found naming the id and the class. */
  function Find(t: Table<Produto>, id: int): (r: Result<Produto>)
    ensures r.Ok? <==> id in t.rows
    ensures r.Ok? ==> r.value == t.rows[id]
    ensures r.Err? ==> r.error == ObjectNotFound(id, PRODUTO_CLASS)
  {
    match FindById(t, id)
    case Some(p) => Ok(p)
    case None => Err(ObjectNotFound(id, PRODUTO_CLASS))
  }

  /** findAllById on the category table: the stored categories among `ids`; ids with no
      row are dropped without an error. */
  function FindAllById(t: Table<Categoria>, ids: seq<int>): (r: seq<Categoria>)
    ensures |r| <= |ids|
    ensures forall c :: c in r <==> exists j :: 0 <= j < |ids| && ids[j] in t.rows && t.rows[ids[j]] == c
    decreases |ids|
  {
    if ids == [] then []
    else
      var rest := FindAllById(t, ids[1..]);
      assert forall j :: 1 <= j < |ids| ==> ids[j] == ids[1..][j - 1];
      if ids[0] in t.rows then [t.rows[ids[0]]] + rest else rest
  }

  /** The product belongs to at least one of the given categories. */
  predicate InCategorias(p: Produto, cats: seq<Categoria>) {
    exists c :: c in cats && c.id in p.categorias
  }

  /** The derived query's predicate: name containing `nome` and categories in `cats`. */
  predicate Matches(p: Produto, nome: string, cats: seq<Categoria>) {
    Contains(p.nome, nome) && InCategorias(p, cats)
  }

  /** The matching products of `ordered` with duplicates removed, first occurrence kept, in
      the order of `ordered`; `seen` holds the products already emitted. */
  function Query(ordered: seq<Produto>, nome: string, cats: seq<Categoria>, seen: set<Produto>): (r: seq<Produto>)
    ensures forall p :: p in r <==> p in ordered && p !in seen && Matches(p, nome, cats)
    ensures NoDuplicates(r)
    ensures Subsequence(r, ordered)
    decreases |ordered|
  {
    if ordered == [] then []
    else
      var p := ordered[0];
      if p !in seen && Matches(p, nome, cats) then
        var rest := Query(ordered[1..], nome, cats, seen + {p});
        assert ([p] + rest)[1..] == rest;
        [p] + rest
      else
        var rest := Query(ordered[1..], nome, cats, seen);
        assert rest != [] ==> Subsequence(rest, ordered[1..]);
        rest
  }

  /** The page at `offset` of length at most `size`. */
  function Slice<T>(s: seq<T>, offset: nat, size: nat): (r: seq<T>)
    ensures |r| <= size
    ensures |r| == if offset >= |s| then 0 else Min(size, |s| - offset)
    ensures forall i :: 0 <= i < |r| ==> offset + i < |s| && r[i] == s[offset + i]
  {
    if offset >= |s| then [] else s[offset..Min(offset + size, |s|)]
  }

  /** search: the page request is built first (a negative page, a page size below one, a
      direction other than ASC/DESC or a blank sort property is an illegal argument), then
      the category ids are resolved and the query runs over `ordered`, the product rows in
      the requested sort order. Building that query resolves the sort property against the
      entity: `sortable` holds the property paths the query engine resolves on Produto, and
      any other name is a property-reference error. */
  function Search(categorias: Table<Categoria>, ordered: seq<Produto>, sortable: set<string>,
                  nome: string, ids: seq<int>, page: int, linesPerPage: int,
                  orderBy: string, direction: string): (r: Result<Page<Produto>>)
    ensures r == Err(IllegalArgument) <==>
      page < 0 || linesPerPage < 1 || direction !in DIRECTIONS || !HasText(orderBy)
    ensures r == Err(PropertyReference(orderBy, PRODUTO_CLASS)) <==>
      page >= 0 && linesPerPage >= 1 && direction in DIRECTIONS && HasText(orderBy) && orderBy !in sortable
    ensures r.Ok? <==>
      page >= 0 && linesPerPage >= 1 && direction in DIRECTIONS && HasText(orderBy) && orderBy in sortable
    ensures r.Ok? ==> |r.value.content| <= linesPerPage && r.value.number == page && r.value.size == linesPerPage
    ensures r.Ok? ==> forall p :: p in r.value.content ==>
      p in ordered && Contains(p.nome, nome) && InCategorias(p, FindAllById(categorias, ids))
    ensures r.Ok? ==> NoDuplicates(r.value.content)
    ensures r.Ok? ==>
      var all := Query(ordered, nome, FindAllById(categorias, ids), {});
      && r.value.totalElements == |all|
      && r.value.content == Slice(all, page * linesPerPage, linesPerPage)
  {
    if page < 0 || linesPerPage < 1 || direction !in DIRECTIONS || !HasText(orderBy) then
      Err(IllegalArgument)
    else
      var cats := FindAllById(categorias, ids);
      if orderBy !in sortable then Err(PropertyReference(orderBy, PRODUTO_CLASS))
      else
        var all := Query(ordered, nome, cats, {});
        Ok(Page(Slice(all, page * linesPerPage, linesPerPage), |all|, page, linesPerPage))
  }

  /** With a well-formed category table, a product passes the category filter exactly when
      one of its categories is among the requested ids and is stored. */
  lemma {:induction false} InResolvedCategorias(t: Table<Categoria>, ids: seq<int>, p: Produto)
    requires forall k :: k in t.rows ==> t.rows[k].id == k
    ensures InCategorias(p, FindAllById(t, ids)) <==>
      exists j :: 0 <= j < |ids| && ids[j] in t.rows && ids[j] in p.categorias
  {
    if j :| 0 <= j < |ids| && ids[j] in t.rows && ids[j] in p.categorias {
      RequestedIsResolved(t, ids, j);
      assert t.rows[ids[j]].id == ids[j];
    }
    if InCategorias(p, FindAllById(t, ids)) {
      var c :| c in FindAllById(t, ids) && c.id in p.categorias;
      var j := ResolvedIsRequested(t, ids, c);
      assert t.rows[ids[j]].id == ids[j];
      assert ids[j] in p.categorias;
    }
  }

  lemma RequestedIsResolved(t: Table<Categoria>, ids: seq<int>, j: int)
    requires 0 <= j < |ids| && ids[j] in t.rows
    ensures t.rows[ids[j]] in FindAllById(t, ids)
  {
  }

  lemma ResolvedIsRequested(t: Table<Categoria>, ids: seq<int>, c: Categoria) returns (j: int)
    requires c in FindAllById(t, ids)
    ensures 0 <= j < |ids| && ids[j] in t.rows && t.rows[ids[j]] == c
  {
    j :| 0 <= j < |ids| && ids[j] in t.rows && t.rows[ids[j]] == c;
  }

  /** Two different pages of the same search share no product: the query is duplicate-free
      and the pages are disjoint slices of it. */
  lemma PagesDisjoint(categorias: Table<Categoria>, ordered: seq<Produto>, sortable: set<string>,
                      nome: string, ids: seq<int>, page1: nat, page2: nat, linesPerPage: int,
                      orderBy: string, direction: string)
    requires page1 < page2
    requires Search(categorias, ordered, sortable, nome, ids, page1, linesPerPage, orderBy, direction).Ok?
    ensures Search(categorias, ordered, sortable, nome, ids, page2, linesPerPage, orderBy, direction).Ok?
    ensures forall p ::
      p in Search(categorias, ordered, sortable, nome, ids, page1, linesPerPage, orderBy, direction).value.content ==>
      p !in Search(categorias, ordered, sortable, nome, ids, page2, linesPerPage, orderBy, direction).value.content
  {
    var all := Query(ordered, nome, FindAllById(categorias, ids), {});
    PageOffsetsApart(page1, page2, linesPerPage);
    SlicesDisjoint(all, page1 * linesPerPage, page2 * linesPerPage, linesPerPage);
  }

  lemma PageOffsetsApart(page1: nat, page2: nat, size: nat)
    requires page1 < page2
    ensures page1 * size + size <= page2 * size
  {
    assert page1 * size + size == (page1 + 1) * size;
  }

  /** Slices of a duplicate-free sequence that do not overlap have no element in common. */
  lemma SlicesDisjoint<T>(s: seq<T>, offset1: nat, offset2: nat, size: nat)
    requires NoDuplicates(s) && offset1 + size <= offset2
    ensures forall x :: x in Slice(s, offset1, size) ==> x !in Slice(s, offset2, size)
  {
    var s1, s2 := Slice(s, offset1, size), Slice(s, offset2, size);
    forall x | x in s1
      ensures x !in s2
    {
      var i :| 0 <= i < |s1| && s1[i] == x;
      forall j | 0 <= j < |s2|
        ensures s2[j] != x
      {
        assert offset1 + i < offset2 + j;
        assert s2[j] == s[offset2 + j];
      }
    }
  }

  /** Three products, two in category 3 and one in category 4: searching category 3 for
      "Shirt", sorted by name, gives the two category-3 products in table order. */
  lemma ShirtSearch()
    ensures var cats := Table(map[3 := Categoria(3, "Roupas"), 4 := Categoria(4, "Casa")], 5);
      var red, blue, box := Produto(1, "Red Shirt", {3}), Produto(2, "Blue Shirt", {4}), Produto(3, "Shirt Box", {3});
      Search(cats, [red, blue, box], {"nome"}, "Shirt", [3], 0, 10, "nome", "ASC") == Ok(Page([red, box], 2, 0, 10))
  {
    var red, box := Produto(1, "Red Shirt", {3}), Produto(3, "Shirt Box", {3});
    ShirtQueries();
    NomeHasText();
    assert Slice([red, box], 0, 10) == [red, box];
  }

  /** The same search for "shirt": under the model's case-sensitive reading of the name
      match, it finds none of the three products. */
  lemma LowerShirtSearch()
    ensures var cats := Table(map[3 := Categoria(3, "Roupas"), 4 := Categoria(4, "Casa")], 5);
      var red, blue, box := Produto(1, "Red Shirt", {3}), Produto(2, "Blue Shirt", {4}), Produto(3, "Shirt Box", {3});
      Search(cats, [red, blue, box], {"nome"}, "shirt", [3], 0, 10, "nome", "ASC") == Ok(Page([], 0, 0, 10))
  {
    ShirtQueries();
    NomeHasText();
  }

  lemma NomeHasText()
    ensures HasText("nome")
  {
    assert !IsWhitespace("nome"[0]);
  }

  /** The queries behind ShirtSearch, before paging. */
  lemma ShirtQueries()
    ensures var cats := Table(map[3 := Categoria(3, "Roupas"), 4 := Categoria(4, "Casa")], 5);
      var red, blue, box := Produto(1, "Red Shirt", {3}), Produto(2, "Blue Shirt", {4}), Produto(3, "Shirt Box", {3});
      && Query([red, blue, box], "Shirt", FindAllById(cats, [3]), {}) == [red, box]
      && Query([red, blue, box], "shirt", FindAllById(cats, [3]), {}) == []
  {
    var cats := Table(map[3 := Categoria(3, "Roupas"), 4 := Categoria(4, "Casa")], 5);
    var red, blue, box := Produto(1, "Red Shirt", {3}), Produto(2, "Blue Shirt", {4}), Produto(3, "Shirt Box", {3});
    var resolved := FindAllById(cats, [3]);
    assert resolved == [Categoria(3, "Roupas")];
    RedShirtMatches(resolved);
    BlueShirtMatchesNot(resolved);
    ShirtBoxMatches(resolved);
    QueryOfThree(red, blue, box, "Shirt", resolved);
    QueryOfThree(red, blue, box, "shirt", resolved);
  }

  /** The same search sorted by a property products do not have fails when the query is
      built, and a blank sort property is refused while the page request is built. */
  lemma SortPropertyErrors(cats: Table<Categoria>, ordered: seq<Produto>)
    ensures Search(cats, ordered, {"nome"}, "Shirt", [3], 0, 10, "xyz", "ASC") == Err(PropertyReference("xyz", PRODUTO_CLASS))
    ensures Search(cats, ordered, {"nome"}, "Shirt", [3], 0, 10, " ", "ASC") == Err(IllegalArgument)
  {
    assert !IsWhitespace("xyz"[0]);
  }

  /** The query over three rows, written out for the middle row failing the predicate. */
  lemma QueryOfThree(a: Produto, b: Produto, c: Produto, nome: string, cats: seq<Categoria>)
    requires !Matches(b, nome, cats) && a != c
    ensures Matches(a, nome, cats) && Matches(c, nome, cats) ==> Query([a, b, c], nome, cats, {}) == [a, c]
    ensures !Matches(a, nome, cats) && !Matches(c, nome, cats) ==> Query([a, b, c], nome, cats, {}) == []
  {
    assert [a, b, c][1..] == [b, c] && [b, c][1..] == [c] && [c][1..] == [];
    if Matches(a, nome, cats) && Matches(c, nome, cats) {
      assert Query([c], nome, cats, {a}) == [c] + Query([], nome, cats, {a, c});
      assert Query([b, c], nome, cats, {a}) == Query([c], nome, cats, {a});
      assert Query([a, b, c], nome, cats, {}) == [a] + Query([b, c], nome, cats, {} + {a});
    }
    if !Matches(a, nome, cats) && !Matches(c, nome, cats) {
      assert Query([c], nome, cats, {}) == Query([], nome, cats, {});
      assert Query([b, c], nome, cats, {}) == Query([c], nome, cats, {});
      assert Query([a, b, c], nome, cats, {}) == Query([b, c], nome, cats, {});
    }
  }

  /** "Red Shirt" in category 3 matches "Shirt" but not "shirt". */
  lemma RedShirtMatches(resolved: seq<Categoria>)
    requires resolved == [Categoria(3, "Roupas")]
    ensures Matches(Produto(1, "Red Shirt", {3}), "Shirt", resolved)
    ensures !Matches(Produto(1, "Red Shirt", {3}), "shirt", resolved)
  {
    assert resolved[0] in resolved;
    var hay := "Red Shirt";
    assert hay[4..] == "Shirt";
    assert hay[1..][1..][1..][1..] == hay[4..];
    NoLowerShirt(hay);
  }

  /** "Blue Shirt" is in category 4 only, so neither spelling matches. */
  lemma BlueShirtMatchesNot(resolved: seq<Categoria>)
    requires resolved == [Categoria(3, "Roupas")]
    ensures !Matches(Produto(2, "Blue Shirt", {4}), "Shirt", resolved)
    ensures !Matches(Produto(2, "Blue Shirt", {4}), "shirt", resolved)
  {
  }

  /** "Shirt Box" in category 3 matches "Shirt" but not "shirt". */
  lemma ShirtBoxMatches(resolved: seq<Categoria>)
    requires resolved == [Categoria(3, "Roupas")]
    ensures Matches(Produto(3, "Shirt Box", {3}), "Shirt", resolved)
    ensures !Matches(Produto(3, "Shirt Box", {3}), "shirt", resolved)
  {
    assert resolved[0] in resolved;
    assert "Shirt" <= "Shirt Box";
    NoLowerShirt("Shirt Box");
  }

  /** No name without a lower-case 's' contains "shirt". */
  lemma {:induction false} NoLowerShirt(hay: string)
    requires forall i :: 0 <= i < |hay| ==> hay[i] != 's'
    ensures !Contains(hay, "shirt")
    decreases |hay|
  {
    if |hay| > 0 {
      assert hay[0] != "shirt"[0];
      NoLowerShirt(hay[1..]);
    }
  }
}
