# cursomc services: access control, store operations, product search and tokens

A Dafny model of the logic-bearing core of the cursomc e-commerce backend:

- the customer service (`ClienteService`), including its admin-or-owner guard;
- the category service (`CategoriaService`);
- the product service (`ProdutoService`), with its filtered, distinct, paged search;
- the JWT utility (`JWTUtil`) that issues tokens and checks them.

Every operation is side-effect free: a pure function, except `ClienteService.FindByEmail`, a method whose only freedom is which of several matching rows it returns. The authenticated principal (`UserSS`) is an explicit `Option` parameter. So are the clock (milliseconds), the token configuration and the tables. Thrown exceptions become values of `Exceptions.Error`:

- `ObjectNotFound(id, class)`;
- `Authorization(message)`;
- `DataIntegrity(message)`;
- `IllegalArgument`, for bad paging arguments, a blank sort property and an empty signing secret;
- `PropertyReference(property, class)`, for a sort property the entity does not have.

A table (`Repository.Table`) is a map from primary key to row, together with the identity generator's next value. An operation that may write returns a `Reply`: the table afterwards plus the result. "The store is unchanged" is therefore a statement the contracts make, not an assumption.

The JWT library, jjwt 0.9.x, is modelled in `Jws` as a symbolic HS512 signature `Hs512(key, claims)` (section 3.2 of RFC 7518). It matches only for the same key and the same claims, which idealises the MAC. The builder's behaviour modelled there:

- `setSubject` drops a blank subject (one with no character outside Java's whitespace), because the builder has no claims yet when it is called;
- `signWith` throws IllegalArgumentException for an empty key.

The parser's behaviour modelled there:

- it refuses an empty key, and `getClains` turns that into an absent value;
- it rejects anything that is not a JWS signed under the key;
- it rejects a token whose `exp` instant lies before the current time;
- it reads `exp` as a NumericDate in whole seconds (section 2 and section 4.1.4 of RFC 7519).

"Parsing what was signed gives back the claims" is a proved lemma (`Jws.SignThenParse`), not an assumption.

Files: `wrappers.dfy`, `exceptions.dfy`, `repository.dfy`, `domain.dfy`, `text.dfy` (substring search), `cliente_service.dfy`, `categoria_service.dfy`, `produto_service.dfy`, `jws.dfy`, `jwt_util.dfy`.

Behaviour the model takes from the code, where a reader might expect otherwise:

- The name filter is modelled as a case-sensitive substring match. The derived query `findDistinctByNomeContainingAndCategoriasIn` has no `IgnoreCase`, so the code itself asks for no case folding; whether the database's `LIKE` folds case anyway depends on its collation, which this model does not decide (see Left out). `ProdutoService.LowerShirtSearch` shows the model's reading: "shirt" does not match "Red Shirt".
- The category filter is `In` over the resolved category list. An empty list is not treated as "no category restriction"; see Left out.
- The customer and category services check no role on insert. Any such check lives outside the services.
- The category service has no authorization at all.
- A token issued for a blank username has no subject, so it is never valid and reports no username (`JwtUtil.BlankUsernameNeverValid`). With an empty secret `generateToken` throws and no token is valid (`JwtUtil.EmptySecretRejected`).
- `getUsername` performs no expiry check of its own. The library parser it calls does reject a token whose expiry has passed. So at the expiry instant the subject is still returned (`JwtUtil.UsernameAtExpiryInstant`), and after it the username is absent.

## Model

| member | source | states |
|---|---|---|
| ClienteService.Denied | src/main/java/br/com/jhonicosta/cursomc/services/ClienteService.java:59-61 | the guard as written (Java `and` binding tighter than `or`) denies exactly when the principal is absent or is neither administrator nor the owner of the id |
| ClienteService.DeniedByEmail | src/main/java/br/com/jhonicosta/cursomc/services/ClienteService.java:97-100 | the email guard denies exactly when the principal is absent or is neither administrator nor the user whose username is the email |
| ClienteService.Find | src/main/java/br/com/jhonicosta/cursomc/services/ClienteService.java:57-67 | no principal gives Forbidden; Forbidden exactly when not admin-or-owner, whether or not the id is stored; an authorized caller gets the stored row when present and not-found naming the id and the Cliente class when absent |
| ClienteService.Insert | src/main/java/br/com/jhonicosta/cursomc/services/ClienteService.java:69-75 | insert always succeeds; the saved row equals the input except for its id; it is stored under a key no existing row uses, so the table gains exactly one row; table well-formedness is preserved |
| ClienteService.UpdateData | src/main/java/br/com/jhonicosta/cursomc/services/ClienteService.java:136-139 | the merged customer takes name and email from the incoming object and keeps id, document, type and password of the stored one |
| ClienteService.Update | src/main/java/br/com/jhonicosta/cursomc/services/ClienteService.java:77-81 | fails with find's own error (Forbidden or not-found), leaving the table unchanged; succeeds exactly for an authorized, stored id; then only name and email of that row change, every other row and key is unchanged, and well-formedness is preserved |
| ClienteService.Delete | src/main/java/br/com/jhonicosta/cursomc/services/ClienteService.java:83-90 | find's errors come first; a customer that orders still reference gives the data-integrity error with the table unchanged; otherwise exactly that key is removed |
| ClienteService.FindByEmail | src/main/java/br/com/jhonicosta/cursomc/services/ClienteService.java:96-108 | Forbidden exactly when not admin-or-self; an authorized caller gets a stored customer with that email if one exists, and otherwise not-found carrying the principal's id (not the email) |
| ClienteService.FromDto | src/main/java/br/com/jhonicosta/cursomc/services/ClienteService.java:115-117 | the update DTO gives id, name and email; document, type and password are null |
| ClienteService.UpdateFromDtoKeepsStoredFields | src/main/java/br/com/jhonicosta/cursomc/services/ClienteService.java:115-117 | updating from a DTO never wipes the document, type or password the DTO leaves null |
| ClienteService.InsertIgnoresClientId | src/main/java/br/com/jhonicosta/cursomc/services/ClienteService.java:70-72 | two inserts that differ only in the client-supplied id have identical effects |
| ClienteService.ForbiddenBeforeNotFound | src/main/java/br/com/jhonicosta/cursomc/services/ClienteService.java:59-66 | a non-admin non-owner gets Forbidden, never not-found, for an absent id, from both find and update |
| ClienteService.OwnerAndAdminScenario | src/main/java/br/com/jhonicosta/cursomc/services/ClienteService.java:60 | customer 5 reads record 5, is refused record 6, and an administrator reads record 6 |
| ClienteService.TelefonesAsWritten | src/main/java/br/com/jhonicosta/cursomc/services/ClienteService.java:126-132 | as written, the phone list is the first phone alone when the second is null, and otherwise all three phones including a possibly null third |
| ClienteService.TelefonesAsWrittenMisplacesThird | src/main/java/br/com/jhonicosta/cursomc/services/ClienteService.java:130-131 | with a second phone and no third a null is added; with a third phone and no second the third is lost |
| ClienteService.Telefones | src/main/java/br/com/jhonicosta/cursomc/services/ClienteService.java:126-132 | the intended phone set holds exactly the first phone and each optional phone that is present |
| ClienteService.Present | src/main/java/br/com/jhonicosta/cursomc/services/ClienteService.java:126-132 | the phones among the values added are exactly the non-null ones |
| ClienteService.TelefonesAsWrittenAgreement | src/main/java/br/com/jhonicosta/cursomc/services/ClienteService.java:128-131 | the code as written adds no null and the same phones as intended exactly when the third phone is present only with the second, or a lone third phone repeats the first |
| CategoriaService.Find | src/main/java/br/com/jhonicosta/cursomc/services/CategoriaService.java:26-30 | succeeds exactly for a stored id, returning that row, with no authorization; otherwise not-found naming the id and the Categoria class |
| CategoriaService.Insert | src/main/java/br/com/jhonicosta/cursomc/services/CategoriaService.java:32-36 | the saved category keeps the input name under a key no existing row uses; the key set grows by exactly that key; existing rows are untouched |
| CategoriaService.UpdateData | src/main/java/br/com/jhonicosta/cursomc/services/CategoriaService.java:44-46 | the merged category keeps the stored id and takes the incoming name |
| CategoriaService.Update | src/main/java/br/com/jhonicosta/cursomc/services/CategoriaService.java:38-42 | succeeds exactly for a stored id; an absent id gives not-found with the table unchanged; otherwise the incoming object itself is what is stored and returned at its id, with no other key changed |
| CategoriaService.Delete | src/main/java/br/com/jhonicosta/cursomc/services/CategoriaService.java:48-55 | succeeds exactly for a stored id that no product belongs to; an absent id gives not-found; a category some product still belongs to gives the data-integrity error; both errors leave the table unchanged; on success exactly that key is removed |
| CategoriaService.FromDto | src/main/java/br/com/jhonicosta/cursomc/services/CategoriaService.java:66-68 | the category carries the DTO's id and name |
| CategoriaService.UpdateSavesMergedCopy | src/main/java/br/com/jhonicosta/cursomc/services/CategoriaService.java:38-46 | on a well-formed table, saving the incoming object stores the same category the merged copy would have been |
| CategoriaService.InsertIgnoresClientId | src/main/java/br/com/jhonicosta/cursomc/services/CategoriaService.java:33-35 | two inserts that differ only in the client-supplied id have identical effects |
| CategoriaService.UpdateFromDtoStoresName | src/main/java/br/com/jhonicosta/cursomc/services/CategoriaService.java:38-42 | updating from a DTO whose id is stored succeeds, returns the DTO's id and name, and stores that name under that id |
| CategoriaService.DeleteTwiceNotFound | src/main/java/br/com/jhonicosta/cursomc/services/CategoriaService.java:48-50 | after a successful delete, deleting the same id again reports it not found |
| ProdutoService.Find | src/main/java/br/com/jhonicosta/cursomc/services/ProdutoService.java:26-30 | succeeds exactly for a stored id, returning that row; otherwise not-found naming the id and the Produto class |
| ProdutoService.FindAllById | src/main/java/br/com/jhonicosta/cursomc/services/ProdutoService.java:35 | the resolved list holds exactly the stored categories whose ids were requested; unknown ids are dropped, not errors |
| ProdutoService.Query | src/main/java/br/com/jhonicosta/cursomc/services/ProdutoService.java:36 | the query result holds exactly the products whose name contains the argument and that are in a resolved category, each once, in the order of the sorted rows |
| ProdutoService.Slice | src/main/java/br/com/jhonicosta/cursomc/services/ProdutoService.java:33-36 | a page has at most the page size items, namely the consecutive items starting at the page offset |
| ProdutoService.Search | src/main/java/br/com/jhonicosta/cursomc/services/ProdutoService.java:32-38 | an illegal argument exactly for a negative page, a page size below one, a direction other than ASC/DESC or a blank sort property; otherwise a property-reference error exactly when the sort property is not one the query engine resolves on Produto; otherwise a page of at most `linesPerPage` distinct products, each with a matching name and category, equal to the slice at `page * linesPerPage` of the query result, whose size is the total |
| ProdutoService.InResolvedCategorias | src/main/java/br/com/jhonicosta/cursomc/services/ProdutoService.java:35-36 | with a well-formed category table, a product passes the category filter exactly when one of its category ids is requested and stored |
| ProdutoService.PagesDisjoint | src/main/java/br/com/jhonicosta/cursomc/services/ProdutoService.java:33-36 | two different pages of the same search share no product |
| ProdutoService.ShirtSearch | src/main/java/br/com/jhonicosta/cursomc/services/ProdutoService.java:32-38 | "Shirt" in category 3, sorted by `nome`, returns "Red Shirt" and "Shirt Box" in table order with total 2 |
| ProdutoService.LowerShirtSearch | src/main/java/br/com/jhonicosta/cursomc/services/ProdutoService.java:32-38 | under the model's case-sensitive reading, the same search for "shirt" returns an empty page with total 0 |
| ProdutoService.SortPropertyErrors | src/main/java/br/com/jhonicosta/cursomc/services/ProdutoService.java:33-36 | the same search sorted by "xyz" gives a property-reference error naming "xyz" and Produto, and sorted by a blank name an illegal argument |
| Text.ContainsIsSubstring | src/main/java/br/com/jhonicosta/cursomc/services/ProdutoService.java:36 | the left-to-right name scan succeeds exactly when the argument occurs at some offset of the name |
| Jws.Sign | src/main/java/br/com/jhonicosta/cursomc/security/JWTUtil.java:23 | signing refuses exactly the empty key with an illegal argument; otherwise the token carries the given claims and a signature that verifies under the key |
| Jws.Parse | src/main/java/br/com/jhonicosta/cursomc/security/JWTUtil.java:41 | parsing succeeds exactly for a non-empty key and a token signed under it whose expiry, if any, has not passed, and then yields its claims |
| Jws.Build | src/main/java/br/com/jhonicosta/cursomc/security/JWTUtil.java:22 | the built claims carry the subject exactly when it has text, and always the given expiry |
| Jws.BlankSubjectDropped | src/main/java/br/com/jhonicosta/cursomc/security/JWTUtil.java:22 | an empty subject and one of only spaces, tabs and line breaks are dropped; one visible character keeps the subject |
| Jws.SignThenParse | src/main/java/br/com/jhonicosta/cursomc/security/JWTUtil.java:22-23 | signing succeeds exactly for a non-empty key, and parsing what was signed under that key gives back its claims up to the expiry instant |
| Jws.ParseUnderOtherKey | src/main/java/br/com/jhonicosta/cursomc/security/JWTUtil.java:41 | a token signed under one key never parses under another |
| JwtUtil.JavaDiv | src/main/java/br/com/jhonicosta/cursomc/security/JWTUtil.java:22 | the expiry in seconds is the millisecond instant truncated toward zero |
| JwtUtil.GenerateToken | src/main/java/br/com/jhonicosta/cursomc/security/JWTUtil.java:21-24 | an empty secret gives an illegal argument and nothing else does; the token is signed with the secret, has the username as subject exactly when the username has text, and has an expiry that is `now + expiration` cut toward zero to the whole second, on either side of the epoch |
| JwtUtil.GetClaims | src/main/java/br/com/jhonicosta/cursomc/security/JWTUtil.java:39-45 | claims come back exactly for a non-empty secret and a token signed with it whose expiry, if any, is not before now, and they are that token's claims; every failure is an absent value |
| JwtUtil.ValidityThroughClaims | src/main/java/br/com/jhonicosta/cursomc/security/JWTUtil.java:26-53 | tokenValido holds exactly when getClains returns claims with a subject and an expiry strictly after now; getUsername is the subject of whatever getClains returns |
| JwtUtil.SingleClockReadSuffices | src/main/java/br/com/jhonicosta/cursomc/security/JWTUtil.java:27-32 | when the parser reads the clock no later than tokenValido's own reading, the two-reading outcome equals the one-reading model at the later reading |
| JwtUtil.TokenValido | src/main/java/br/com/jhonicosta/cursomc/security/JWTUtil.java:26-37 | valid exactly when the secret is non-empty, the token is signed with it, has a subject and an expiry, and now is strictly before the expiry instant |
| JwtUtil.GetUsername | src/main/java/br/com/jhonicosta/cursomc/security/JWTUtil.java:47-53 | the subject comes back exactly for a non-empty secret and a token signed with it, with a subject, whose expiry, if any, has not passed; otherwise absent |
| JwtUtil.ValidWhenIssued | src/main/java/br/com/jhonicosta/cursomc/security/JWTUtil.java:21-37 | with a lifetime of at least one second, an issued token is valid at issue time exactly when the username has text, and reports that username (absent when blank) |
| JwtUtil.ValidUntilExpiry | src/main/java/br/com/jhonicosta/cursomc/security/JWTUtil.java:26-37 | an issued token is valid exactly when its username has text and now is strictly before its expiry instant |
| JwtUtil.UsernameRoundTrip | src/main/java/br/com/jhonicosta/cursomc/security/JWTUtil.java:21-23 | reading an issued token under the same secret, at any time up to its expiry, gives back the username, or nothing when the username was blank |
| JwtUtil.UsernameAtExpiryInstant | src/main/java/br/com/jhonicosta/cursomc/security/JWTUtil.java:47-53 | at the expiry instant an issued token is invalid, yet getUsername still returns its subject |
| JwtUtil.OtherSecretRejected | src/main/java/br/com/jhonicosta/cursomc/security/JWTUtil.java:39-45 | a token issued under another secret is never valid and has no username |
| JwtUtil.BlankUsernameNeverValid | src/main/java/br/com/jhonicosta/cursomc/security/JWTUtil.java:21-37 | a token issued for a blank username carries no subject, is never valid and reports no username |
| JwtUtil.EmptySecretRejected | src/main/java/br/com/jhonicosta/cursomc/security/JWTUtil.java:21-45 | with an empty secret issuing throws an illegal argument, and no token gives claims, is valid or has a username |
| JwtUtil.UnsignedOrMalformedRejected | src/main/java/br/com/jhonicosta/cursomc/security/JWTUtil.java:39-53 | unsigned or malformed tokens are never valid and have no username, and nothing is thrown |
| JwtUtil.ShortLifetimeExpiredWhenIssued | src/main/java/br/com/jhonicosta/cursomc/security/JWTUtil.java:22 | with a 300 ms lifetime, a token issued at 2600 ms has expiry 2 s and is invalid at once |

## Left out

- `findAll` and `findPage` of the customer and category services: these only delegate to the library's pagination.
- `uploadProfilePicture`: image cropping, resizing and the object-store upload are I/O.
- `fromDTO(ClienteNewDTO)`: it depends on the password encoder, a foreign call. Only its phone list is modelled, for the finding below.
- The address `saveAll` in customer insert, and the transaction around it: persistence semantics.
- Email services, the exception-to-HTTP-status handler, `BoletoService` and `PedidoService`: outside the core.
- The repository interfaces: they are tables plus a referential-integrity condition.
  - Customer orders are not modelled. `ClienteService.Delete` takes the set of customer ids that orders still reference.
  - Category references are derived from the product table.
- `ProdutoService.Search`: sorting by `orderBy`/`direction` is done by the query engine, so the search takes the product rows already in the requested order.
- `ProdutoService.Search`: which property paths the query engine resolves on Produto (its rules for nested paths and capitalisation included) is not modelled; the Produto entity class is not part of this model, so the resolvable paths are the `sortable` parameter.
- `ProdutoService.Search`: for an empty resolved category list it matches nothing. That is the literal reading of `In`. The real behaviour is decided by the query engine and is not claimed.
- `ProdutoService.Search`: the name match is taken case-sensitively. Case folding by the database collation under `LIKE` is not modelled.
- `ProdutoService.Search`: `%` and `_` inside the name argument are taken literally. Escaping them in `LIKE` is the engine's concern.
- `ProdutoService.FindAllById`: only membership of the resolved list is stated, not its order or duplicates. The database decides those.
- `ClienteService.FindByEmail`: when several customers share an email it may return any of them. A single-result query would throw instead. Whether the schema makes email unique is not part of this model.
- `ClienteService.FindByEmail`: the email match is exact and case-sensitive. Case folding by the database collation is not modelled.
- `ClienteService.Insert`: a save that the database rejects for a constraint violation, such as a duplicate email under a unique column, is not modelled; the model always succeeds.
- `ClienteService.Update`: likewise, a save rejected by a database constraint, such as a changed email that collides with another customer's, is not modelled.
- Error messages: only the constant message texts and the id and class of not-found errors are modelled, not the concatenated strings.
- HMAC-SHA512 and compact serialization: replaced by the symbolic signature.
- Time: `tokenValido` reads the clock twice, once inside the parser and once itself. The model's `now` is the second reading, the one `tokenValido` takes itself. The parser's check is then taken at that same instant. With a clock that does not go back, this gives the same result (`JwtUtil.SingleClockReadSuffices`).
- `Text.IsWhitespace`: Java's whitespace test follows the JDK's Unicode tables; the model uses the current ones, in which U+180E is not whitespace (JDKs on Unicode before 6.3 count it).
- `Jws.Sign`: the library modelled is jjwt 0.9.x. From 0.10 on, `signWith` also refuses an HS512 key shorter than 64 bytes (WeakKeyException), which is not modelled. The parser's acceptance of a token at exactly its expiry instant is also the 0.9.x parser's behaviour.
- `JwtUtil.GenerateToken`: does not model 64-bit overflow of `currentTimeMillis() + expiration`.
- Null arguments, which throw NullPointerException, are not modelled.
- The product's price field is not modelled (floating point).

## Findings

| source | as written | input that shows it | evidently intended | confidence | as-written member | corrected member |
|---|---|---|---|---|---|---|
| src/main/java/br/com/jhonicosta/cursomc/services/ClienteService.java:130-131 | the third phone is added when the second phone is non-null | second phone "2222" with no third adds a null; third phone "3333" with no second is dropped | add the third phone when the third phone is non-null | high; not executed | ClienteService.TelefonesAsWrittenMisplacesThird | ClienteService.Telefones |
