# Knowledge-base search pipeline, modelled in Dafny

The system is a static page that loads a list of programming languages
(`nome`, `ano`, `descricao`, `link`) once, lets the user search it by a free
text, and shows the result as cards. This project models its whole pipeline
in `script.js`:

- `ordenarDados`: a new list sorted by lower-cased `nome`, stable on ties;
- the search in `iniciarBusca`: trim and lower-case the typed text; an empty
  term passes the full collection through, any other term keeps the records
  whose lower-cased `nome` or `descricao` contains it; the result is sorted;
- `renderizarCards`: clear the card container, then write either the one
  "no results" placeholder or one card per record, in order;
- the page state: the module-level collection `dados`, the load handler that
  fills it, and the container the cards are written into.

Files and modules:

| file | module | contents |
|---|---|---|
| `texto.dfy` | `Texto` | `toLowerCase`, `trim`, `includes` and `<` on strings, with their laws |
| `dados.dfy` | `Dados` | the record `Linguagem` |
| `ordenacao.dfy` | `Ordenacao` | the comparator, `OrdenarDados`, and sortedness, permutation, stability and uniqueness |
| `busca.dfy` | `Busca` | the term, the matching rule, the filter and the search composition |
| `renderizacao.dfy` | `Renderizacao` | display units, what a list looks like once rendered, and the `Container` class with `RenderizarCards` |
| `script.dfy` | `Script` | the `Pagina` class: `dados`, the load handler and `IniciarBusca` |
| `cenarios.dfy` | `Cenarios` | a three-record collection and the views of four searches over it |

How the JavaScript maps onto Dafny:

- Pure code is functions. `OrdenarDados`, the filter and the search are
  functions on `seq<Linguagem>`; since sequences are values, the input of
  the sort cannot be changed by it, which is what the spread copy in
  `ordenarDados` achieves.
- The sort is specified by what ECMA-262 requires of `Array.prototype.sort`
  (section 23.1.3.30 of the 2023 edition): it is stable, and the comparator
  is consistent. `Ordenacao.OrdenarDadosUnique` proves that exactly one list
  is sorted and keeps the input order on ties. So the insertion sort used
  to define `OrdenarDados` gives the same list as any engine's sort.
- State is classes. The card container is `Renderizacao.Container`, whose
  `unidades: seq<Unidade>` field stands for its child elements. The page is
  `Script.Pagina`, with the collection `dados` and the container
  `cardContainer`. `RenderizarCards` clears the field and appends cards in
  a `for` loop, as the source does.
- Reading the input field becomes the parameter `consulta` of `IniciarBusca`.
  The outcome of `fetch` plus `resposta.json()` becomes the parameter
  `resposta` of `Carregar`.

Two places where the code could be read another way, and why the reading
does not matter:

- One could read the initial view as a blank search. The load handler
  instead calls `ordenarDados(dados)` directly, with no filter.
  `Busca.BlankSearchIsInitialView` proves the two give the same list.
- One could read the filter as "empty term OR substring match". The code
  instead skips the filter when the term is empty.
  `Busca.FiltrarIsSelecionar` proves both readings give the same result.

## Model

| member | source | states |
|---|---|---|
| `Texto.LowerChar` | script.js:44-45 | the folded character is never a capital; a capital moves up 32 code points; any other character is left alone |
| `Texto.ToLowerSpec` | script.js:44-45 | lower-casing keeps the length, folds each position, leaves no capital, and is the identity on text without capitals |
| `Texto.ToLowerIdempotent` | script.js:67 | lower-casing twice is lower-casing once |
| `Texto.TrimStartSpec` | script.js:67 | the leading white space is dropped, and the result is a suffix of the input that does not start with white space |
| `Texto.TrimEndSpec` | script.js:67 | the trailing white space is dropped, and the result is a prefix of the input that does not end with white space |
| `Texto.TrimSpec` | script.js:67 | `trim` returns the slice between a white-space prefix and a white-space suffix; the slice neither starts nor ends with white space |
| `Texto.TrimEmptyIffAllSpace` | script.js:67-71 | a text trims to the empty string exactly when it is all white space |
| `Texto.IncludesSpec` | script.js:77 | `includes` holds exactly when the needle occurs at some position of the text |
| `Texto.OccursAtIncludes` | script.js:77 | an occurrence of the needle at any position makes `includes` hold |
| `Texto.IncludesOccursAt` | script.js:77 | when `includes` holds, it returns a position where the needle occurs |
| `Texto.IncludesChars` | script.js:77 | every character of an included needle is a character of the text |
| `Texto.IncludesEmpty` | script.js:77 | the empty needle is included in every text |
| `Texto.LessIrreflexive` | script.js:47-52 | no string is `<` itself |
| `Texto.LessAsymmetric` | script.js:47-52 | `a < b` excludes `b < a` |
| `Texto.LessTransitive` | script.js:47-52 | `<` on strings is transitive |
| `Texto.LessTotal` | script.js:47-53 | of two different strings one is `<` the other, so the comparator returns 0 only for equal strings |
| `Texto.NotLessTransitive` | script.js:47-53 | "not after" on strings is transitive |
| `Ordenacao.Comparar` | script.js:43-54 | the comparator returns -1, 0 or 1; negative iff the first name is `<` the second, positive iff the second is `<` the first, zero iff the lower-cased names are equal |
| `Ordenacao.CompararConsistent` | script.js:43-54 | the comparator is consistent: its sign flips when its arguments swap, and "before", "not after" and "tied" are transitive |
| `Ordenacao.InsertPermutation` | script.js:43 | inserting a record adds exactly that record |
| `Ordenacao.InsertSorted` | script.js:43-54 | inserting into a sorted list leaves it sorted |
| `Ordenacao.InsertComChave` | script.js:47-53 | inserting a record puts it in front of the records it ties with |
| `Ordenacao.OrdenarDadosSorted` | script.js:43-54 | the result is non-decreasing by lower-cased `nome` |
| `Ordenacao.OrdenarDadosPermutation` | script.js:41-43 | the result has the same records as the input, each as often |
| `Ordenacao.OrdenarDadosStable` | script.js:47-53 | for every key, the records with that lower-cased name keep their input order |
| `Ordenacao.ComChaveMembers` | script.js:47-53 | the records grouped under key `k` are exactly the records whose lower-cased name is `k` |
| `Ordenacao.SortedStableUnique` | script.js:43-54 | two sorted lists that agree on the order within every group of ties are equal |
| `Ordenacao.OrdenarDadosUnique` | script.js:43-54 | any sorted list that keeps the input order on ties is exactly the result of `ordenarDados` |
| `Ordenacao.OrdenarDadosIdempotent` | script.js:43-54 | sorting a sorted list changes nothing, so sorting twice is sorting once |
| `Busca.Termo` | script.js:67 | the search term is empty exactly when the typed text is all white space, and it has no capitals |
| `Busca.SelecionarCount` | script.js:73-78 | a matching record is kept as often as it occurs; a record that does not match is dropped |
| `Busca.SelecionarNone` | script.js:73-78 | when no record matches, the filter keeps nothing |
| `Busca.SelecionarAll` | script.js:73-78 | when every record matches, the filter keeps the list as it is |
| `Busca.SelecionarSubsequence` | script.js:73-78 | the kept records are a subsequence of the collection, so the filter never reorders |
| `Busca.FiltrarMembership` | script.js:71-78 | for every term, the empty one included, a record is kept iff it is in the collection and the term is in its lower-cased `nome` or `descricao` |
| `Busca.FiltrarOccurrence` | script.js:73-78 | each kept record has the term at some position of its lower-cased `nome` or `descricao` |
| `Busca.SelecionarEmptyTerm` | script.js:71-78 | the empty term matches every record, so filtering with it keeps everything |
| `Busca.FiltrarIsSelecionar` | script.js:69-79 | skipping the filter for the empty term gives what filtering would, so "empty term or substring" is the rule for every term |
| `Busca.BlankSearchKeepsAll` | script.js:67-71 | a blank or white-space-only search lets `dados` through unchanged, with nothing removed or reordered |
| `Busca.TermoCaseInsensitive` | script.js:67 | lower-casing the typed text first does not change the term |
| `Busca.TrimLowerCommute` | script.js:67 | trimming and lower-casing commute |
| `Busca.LowerSpace` | script.js:67 | lower-casing a character keeps it white space, or keeps it not white space |
| `Busca.TrimStartLowerCommute` | script.js:67 | dropping leading white space commutes with lower-casing |
| `Busca.TrimEndLowerCommute` | script.js:67 | dropping trailing white space commutes with lower-casing |
| `Busca.BuscarSpec` | script.js:65-85 | the search result is sorted, holds each matching record of `dados` as often as it occurs there and no other record, and keeps collection order on ties |
| `Busca.BlankSearchIsInitialView` | script.js:26 | a blank search shows the same list as the initial load |
| `Busca.SearchIsSortedFilter` | script.js:69-82 | a search is the sort of the filter applied to the full collection with the current term, for every term, and sorting its result again changes nothing |
| `Renderizacao.CardDe` | script.js:111-120 | a record is shown as a card |
| `Renderizacao.ExibicaoSpec` | script.js:97-121 | an empty list shows exactly the placeholder; a non-empty one shows one card per record, in order, and no placeholder |
| `Renderizacao.ExibidosExibicao` | script.js:114-119 | reading the display units back gives the rendered list, since each card unit keeps the four field values of its record |
| `Renderizacao.CardsRoundTrip` | script.js:111-121 | for a non-empty list, the card units read back are the list |
| `Renderizacao.ExibicaoInjective` | script.js:97-121 | two different lists never render to the same sequence of display units |
| `Renderizacao.Container.constructor` | script.js:11 | the container starts empty |
| `Renderizacao.Container.RenderizarCards` | script.js:95-122 | the container ends up holding exactly what the list renders to, whatever it held before, so rendering the same list twice gives the same contents |
| `Script.Pagina.constructor` | script.js:17 | the collection starts empty, and so does the container |
| `Script.Pagina.Carregar` | script.js:20-31 | a successful load sets `dados` and shows it sorted; a failed load changes neither `dados` nor the container |
| `Script.Pagina.IniciarBusca` | script.js:65-86 | the container shows the rendering of the sorted, filtered full collection; `dados` is not modified |
| `Cenarios.TrimPlain` | script.js:67 | a text with no white space at either end trims to itself |
| `Cenarios.TermoPlain` | script.js:67 | a text with no white space at its ends and no capitals is the search term as is |
| `Cenarios.NoMatch` | script.js:73-78 | a record does not match a term when its folded `nome` and `descricao` both lack some character of the term |
| `Cenarios.FoldedFields` | script.js:74-75 | the lower-cased fields of the example records |
| `Cenarios.InitialView` | script.js:26 | the example collection shows as ada, C, Python |
| `Cenarios.PythonMatchesScri` | script.js:77 | "scri" is in Python's lower-cased description |
| `Cenarios.CNoScri` | script.js:77 | "scri" is in neither field of C |
| `Cenarios.SelecionarScri` | script.js:73-78 | the filter keeps only Python for "scri" |
| `Cenarios.SearchScri` | script.js:65-86 | searching "scri" shows one card, Python |
| `Cenarios.NoZzz` | script.js:77 | no record of the example collection matches "zzz" |
| `Cenarios.SelecionarZzz` | script.js:73-78 | the filter keeps nothing for "zzz" |
| `Cenarios.SearchZzz` | script.js:65-86 | searching "zzz" shows the placeholder alone |
| `Cenarios.SearchBlank` | script.js:65-86 | searching two spaces shows the full list, ada, C, Python |
| `Cenarios.SelecionarA` | script.js:67-78 | "A" becomes the term "a", which every example record matches |
| `Cenarios.SearchA` | script.js:65-86 | searching "A" shows ada, C, Python |

## Left out

- The `fetch("data.json")` and `resposta.json()` calls and the `await`s: their outcome is the parameter of `Script.Pagina.Carregar`. The `console.error` log on failure is not modelled.
- `DOMContentLoaded`: the handler fires once per page. `Carregar` does not prevent a second call, and nothing else calls it.
- `document.querySelector` for the container and the input, and reading `campoBusca.value`: the container is a field of the page and the typed text is a parameter.
- The HTML of the cards and of the placeholder, the `card` class and `target="_blank"`: a card is the four fields of its record, and the placeholder is a constructor of its own.
- `Renderizacao.ExibicaoInjective`: holds for display units, not for the HTML text the page shows. A card is kept as its field values. On the page, `ano: 1991` and `ano: "1991"` look the same, fields go into `innerHTML` unescaped (so `a&amp;b` and `a&b` both show as `a&b`), and `link` is only an `href`.
- `Renderizacao.ExibidosExibicao`: reads the field values back from the display units, not from the shown HTML text, which can lose the difference between a number and a label, escaped and unescaped text, and the `link`.
- `Renderizacao.CardsRoundTrip`: the same gap as `ExibidosExibicao`, for a non-empty list.
- Records without `ano` or `link`, and years that are neither an integer nor a string: the type `Linguagem` requires both fields and `Ano` is an integer or a label. The page would show "undefined", or the number as written, in the card; these fields are only displayed, so this affects no search, sort or filter outcome.
- `Texto.LowerChar`: folds only ASCII A-Z and the Latin-1 capitals U+00C0-U+00DE except U+00D7. It does not fold other Unicode capitals, and it has none of the special cases of full `toLowerCase`, such as final sigma or capitals that become several characters.
- `Texto.Less`: compares Unicode code points. JavaScript compares UTF-16 code units, and the two orders differ only when a character outside the Basic Multilingual Plane meets one from U+E000 to U+FFFF.
- Records with no `nome` or `descricao`: the source faults on them while folding. Here both fields are required by the type `Linguagem`, so such records cannot arise.
- A search before the load finishes: it is modelled as a search over the empty starting collection, and it shows the placeholder. The source does not prevent it.
