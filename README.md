# Verified model of the Rampur News CMS core (Strapi)

This project models the rules of a Strapi-based news CMS in Dafny: the
rules its controllers, lifecycle hooks, policies, middleware, start-up seeding
and maintenance scripts apply to requests and stored records. Every database,
plugin and network call is replaced by a value passed in or an abstract store:
a map from slug to owner, a list of rows, an oracle for file widths. The
clock's readings are parameters.

JavaScript values are the datatype `Js.Value`:
`undefined`, `null`, booleans, integers, `NaN`, the two infinities, strings,
arrays and objects. Objects are maps from property names to values, and
strings are sequences of code points. On that datatype the model keeps apart
the `??` (nullish) and `||` (falsy) fallbacks the code uses.

| module | models |
|---|---|
| `Wrappers`, `Text` | `Option`/`Result`; the string operations of the runtime (trim, case mapping, search, split, join, ordering, number printing) |
| `Js` | values, truthiness, `??`, `String(v)`, `Number(v)` and the parsing helpers every controller repeats |
| `Policies`, `Roles` | `src/policies/cms-role.ts`, `admin-only.ts`, `public-defaults.ts` and the role labels they read |
| `CacheControl` | `src/middlewares/cache-control.ts` |
| `Html`, `Slug`, `Seo`, `Keywords`, `Headline`, `Status` | the text builders of the article and editorial controllers and the article lifecycle: HTML stripping, slugs, SEO titles and descriptions, canonical URLs, read time, keyword lists, headline rules, status derivation |
| `Article` | `src/api/article/controllers/article.ts`: hero selection, the free-slug search, the publication dates a request writes |
| `Lifecycle` | `src/api/article/content-types/article/lifecycles.js`: the `beforeCreate`/`beforeUpdate` hooks as a class over the event's `data` record |
| `Editorial` | `src/api/editorial/controllers/editorial.ts`: related articles, the type whitelist, the `editorialType` rule |
| `Exam`, `Microsite`, `AdminUser`, `Author`, `EducationNews`, `SiteSetting`, `Media` | the controllers of the same names |
| `Bootstrap`, `Seeding` | `src/index.ts`: role and permission set-up, and the seeding loops |
| `Paging` | the paged `findMany` loop shared by the scripts, as written and as intended |
| `LegacyValidation`, `DiscoverBackfill`, `PublishExisting`, `PublishedAtBackfill` | the four scripts under `scripts/` |

The code is mostly pure, so most of it becomes functions with lemmas.
The parts that change state in place are modelled as classes or loops:
- the lifecycle hooks' `data` record;
- the site-setting singleton;
- the role store of the start-up code;
- the article table the scripts page through;
- the loops of the slug search, the seeding and the scripts.

Each method is proved against a function that specifies it, and the
properties are proved about that function.

## Model

| member | source | states |
|---|---|---|
| Text.TrimStart | src/api/article/controllers/article.ts:47-51 | drops exactly the leading white space: the result is a suffix, starts with no space, and everything dropped is space |
| Text.TrimEnd | src/api/article/controllers/article.ts:47-51 | drops exactly the trailing white space: the result is a prefix, ends with no space, and everything dropped is space |
| Text.Trim | src/api/article/controllers/article.ts:47-51 | `trim` never lengthens its input and leaves no white space at either end |
| Text.TrimIdentity | src/api/article/controllers/article.ts:47-51 | a string without white space at its edges is its own trim |
| Text.TrimIdempotent | src/api/article/controllers/article.ts:47-51 | trimming twice is trimming once |
| Text.TrimEmpty | src/api/article/controllers/article.ts:47-51 | a string trims to empty exactly when it is all white space |
| Text.Lower | src/api/article/controllers/article.ts:16-18 | `toLowerCase` keeps the length and maps each character by the letter mapping |
| Text.LowerEdges | src/policies/cms-role.ts:9 | lower-casing leaves no upper-case letter and keeps a trimmed string trimmed |
| Text.StartsWithLower | src/policies/admin-only.ts:9 | the lower-cased text starts with `p` exactly when its first `|p|` characters, lower-cased, are `p` |
| Text.ContainsTransitive | src/api/article/controllers/article.ts:168-187 | `includes` is transitive |
| Text.Count | src/api/article/content-types/article/lifecycles.js:38-50 | a count of characters never exceeds the length |
| Text.CountAppend | src/api/article/content-types/article/lifecycles.js:38-50 | counting over a concatenation adds the counts |
| Text.ReplaceRuns | src/api/article/controllers/article.ts:20-21 | `replace(/X+/g, c)` never lengthens its input |
| Text.ReplaceRunsHead | src/api/article/controllers/article.ts:20-21 | the first character after a run replacement is the replacement when the text starts with a run, else the first character |
| Text.ReplaceRunsChars | src/api/article/controllers/article.ts:20-21 | every character that survives a run replacement keeps a property that both the run characters' complement and the replacement have |
| Text.ReplaceRunsNoAdjacent | src/api/article/controllers/article.ts:20-21 | after a run replacement no two neighbours are both run characters |
| Text.ReplaceRunsIdentity | src/api/article/controllers/article.ts:20-21 | a text whose runs are already single replacement characters is left as it is |
| Text.Split | src/api/editorial/controllers/editorial.ts:203-237 | `split` yields at least one part and no part holds the separator |
| Text.Take | src/api/article/controllers/article.ts:204-225 | `slice(0, n)` is a prefix of length min(n, length), empty for n ≤ 0 |
| Text.JoinSplit | src/api/editorial/controllers/editorial.ts:203-237 | joining the parts of a split with the separator gives the text back |
| Text.SplitPrefix | src/api/editorial/controllers/editorial.ts:203-237 | splitting a separator-free piece followed by more text puts the piece in front of the first part |
| Text.SplitSeparator | src/api/editorial/controllers/editorial.ts:203-237 | a leading separator splits off an empty part |
| Text.SplitJoin | src/api/editorial/controllers/editorial.ts:203-237 | splitting parts joined by a separator none of them holds gives the parts back |
| Text.LexLessIrreflexive | src/api/exam/controllers/exam.ts:38-42 | no date string is before itself under JavaScript's string `<` |
| Text.LexLessTransitive | src/api/exam/controllers/exam.ts:38-42 | string `<` is transitive |
| Text.LexLessTotal | src/api/exam/controllers/exam.ts:38-42 | any two different strings are ordered one way or the other |
| Text.LexLessAsymmetric | src/api/exam/controllers/exam.ts:38-42 | string `<` is asymmetric |
| Text.NatToString | src/index.ts:20-23 | `String(n)` of a natural number is non-empty decimal digits with no leading zero |
| Text.IntToString | src/api/admin-user/controllers/admin-user.ts:33 | `String(n)` of an integer is non-empty and has no white space at its edges |
| Text.NatToStringRoundTrip | src/api/admin-user/controllers/admin-user.ts:33 | reading the digits of `String(n)` back gives n |
| Js.StringifyId | src/api/exam/controllers/exam.ts:22-26 | `{ id: String(id), ...rest }` holds the id as a string and every other stored property unchanged |
| Js.SameExceptTrans | src/api/exam/controllers/exam.ts:22-69 | two changes outside a set of keys leave every other key as it was |
| Js.UpdateKeeps | src/api/exam/controllers/exam.ts:22-69 | writing one key of a set changes nothing outside the set |
| Js.FillFrom | src/api/exam/controllers/exam.ts:28-33 | a falsy field takes a truthy fallback field's value and is otherwise left alone; afterwards it is truthy exactly when either was |
| Js.FillFromKeeps | src/api/exam/controllers/exam.ts:28-33 | a fallback fill writes nothing but its own field |
| Js.ExtractData | src/api/admin-user/controllers/admin-user.ts:65-68 | the body's `data` when it is a truthy object, otherwise the body itself, and never null or undefined |
| Js.ToAbsoluteUrl | src/api/article/controllers/article.ts:6-14 | an empty or `http(s)://` URL, and one the URL resolver rejects, is returned unchanged |
| Js.TextOf | src/api/article/content-types/article/lifecycles.js:135-146 | `String(v \|\| '')` is empty for a falsy value and the string itself for a string |
| Js.RadixDigit | src/api/exam/controllers/exam.ts:10 | a digit's value is below its radix; in radix 10 exactly the decimal digits have values, their usual ones |
| Js.RadixValue | src/api/exam/controllers/exam.ts:10 | only a non-empty digit string has a value |
| Js.FirstOf | src/api/exam/controllers/exam.ts:10 | the first position holding either mark, with no mark before it, or the length when there is none |
| Js.Pow10 | src/api/exam/controllers/exam.ts:10 | a power of ten is positive |
| Js.StringToNumber | src/api/exam/controllers/exam.ts:10 | `Number` of a string is a number, `NaN` or an infinity |
| Js.FirstOfAfterDigits | src/api/exam/controllers/exam.ts:10 | the first mark after a mark-free run is where the run ends |
| Js.PrintedNatIsDecimal | src/api/exam/controllers/exam.ts:10 | a printed natural number is a signed-decimal text whose value is the number |
| Js.NotInfinityWord | src/api/exam/controllers/exam.ts:10 | a text starting with a digit is no spelling of `Infinity` |
| Js.NumberOfDecimalLiteral | src/api/exam/controllers/exam.ts:10 | `Number` of a decimal literal with a fraction or exponent whose value is whole gives that value |
| Js.NumberOfFractionalLiteral | src/api/exam/controllers/exam.ts:10 | `Number` of a decimal literal whose value is not whole is outside the integer model (`NaN`) |
| Js.ExponentFormIsScaled | src/api/exam/controllers/exam.ts:10 | `Number("<m>e<k>")` is m · 10^k, so `"1e2"` is 100 |
| Js.Scaled | src/api/exam/controllers/exam.ts:10 | a literal with no fraction digits and exponent k scales its mantissa by 10^k |
| Js.SeparatedDigitsShape | src/api/exam/controllers/exam.ts:10 | `<digits>e<digits>` and `<digits>.<digits>` are trimmed, start with a digit, and are neither plain integers nor prefixed literals |
| Js.NotDecimal | src/api/exam/controllers/exam.ts:10 | a text holding a non-digit after a leading digit is no plain integer |
| Js.NoPrefix | src/api/exam/controllers/exam.ts:10 | a text whose second character is a digit, a point or `e` is no `0x`/`0o`/`0b` literal |
| Js.ExponentFormParts | src/api/exam/controllers/exam.ts:10 | the decimal literal `<m>e<k>` has mantissa m, no fraction digits and exponent k |
| Js.NumberOfPrefixed | src/api/exam/controllers/exam.ts:10 | `Number` of a `0x`/`0o`/`0b` literal is its value in that base |
| Js.NumberOfHex | src/api/exam/controllers/exam.ts:10 | `Number("0x1F")` is 31 |
| Js.OneDecimalParts | src/api/exam/controllers/exam.ts:10 | the decimal literal `<m>.<d>` has mantissa 10·m + d, one fraction digit and exponent 0 |
| Js.NoExponentMark | src/api/exam/controllers/exam.ts:10 | a text of digits and points has no exponent part |
| Js.AppendDigit | src/api/exam/controllers/exam.ts:10 | a digit written after a printed number gives ten times the number plus the digit |
| Js.OneDecimalScaled | src/api/exam/controllers/exam.ts:10 | `m.d` is whole exactly when d is 0, and then its value is m |
| Js.ZeroFractionIsInteger | src/api/exam/controllers/exam.ts:10 | `Number("<m>.0")` is m |
| Js.FractionIsOutside | src/api/exam/controllers/exam.ts:10 | `Number("<m>.<d>")` with d ≠ 0 is a fraction, outside the integer model (`NaN`) |
| Js.OneDecimalShape | src/api/exam/controllers/exam.ts:10 | `<m>.<d>` is a one-fraction-digit decimal literal, whole exactly when d is 0 |
| Js.ToNumber | src/api/exam/controllers/exam.ts:10 | `Number(v)` is a number, `NaN` or an infinity |
| Js.NumberOfPrintedInt | src/api/exam/controllers/exam.ts:10 | `Number(String(n))` is n for every integer n |
| Js.NumberOfDecimal | src/api/exam/controllers/exam.ts:10 | `Number` of a trimmed signed integer text is its value |
| Js.ParseString | src/api/editorial/controllers/editorial.ts:62-66 | yields a value exactly for a string with non-blank text, and then the trimmed text |
| Js.ParseNumber | src/api/exam/controllers/exam.ts:8-12 | null and undefined give nothing; otherwise a value exactly when `Number(v)` is finite, and then that number |
| Js.ParseBoolean | src/api/editorial/controllers/editorial.ts:40-48 | a boolean is itself; the strings `true` and `false` in any case are read; the result is absent exactly for every other value |
| Js.ParseLimit | src/api/exam/controllers/exam.ts:14-18 | a positive finite number is capped at 100; a missing, non-numeric or non-positive one gives the fallback; a fallback in range gives a result in 1..100 |
| Js.ParseRelationId | src/api/author/controllers/author.ts:32-37 | yields a value exactly when `Number(v)` is a positive finite number, and then that number |
| Js.RelationIdOfPrintedId | src/api/author/controllers/author.ts:32-37 | a positive id written as decimal text is read back as that id |
| Policies.CmsRoleAllows | src/policies/cms-role.ts:1-14 | no user denies; otherwise access exactly when the role label (type, else name, trimmed and lower-cased) is one of the four CMS roles |
| Policies.CmsRoleAgreesWithRoleType | src/policies/cms-role.ts:5-13 | the policy admits a user exactly when the admin-user controller's `normalizeRoleType` reads a CMS role, except a role labelled `administrator`, which only the controller maps to `admin` |
| Policies.BearerToken | src/policies/admin-only.ts:8-11 | a token is produced only from a string header whose trimmed text starts with `bearer ` in any case; the token is the rest, trimmed and non-empty |
| Policies.BearerTokenRoundTrip | src/policies/admin-only.ts:8-11 | a header `<Bearer in any case> <token>` yields exactly that token |
| Policies.TokenUser | src/policies/admin-only.ts:2-26 | without a string header nobody is let in; a user is found only for a header whose trimmed text starts with `bearer ` in any case; then it is the user the token names |
| Policies.AuthorizationHeader | src/policies/admin-only.ts:4-7 | the header is the first of `request.header.authorization`, `request.headers.authorization` and `headers.authorization` that is neither null nor undefined, and nullish only when all three are |
| Policies.ResolveRole | src/policies/admin-only.ts:30-46 | a carried non-empty type or name is used as carried; without either and without an id, neither is known; without either but with an id, the pair is the string type and name of the reloaded user's role; each resolved part is a string found on the user's role or on the reloaded user's role |
| Policies.ReloadedAdminPasses | src/policies/admin-only.ts:36-51 | a user whose session carries no role type or name but whose stored role has type `admin` is let through |
| Policies.IsAdmin | src/policies/admin-only.ts:50-53 | a role type exactly `admin` admits; a name reading `admin` in any case admits; when it admits, the type is `admin` or the name has five letters |
| Policies.CarriedRoleIsNotReloaded | src/policies/admin-only.ts:30-46 | the stored user is consulted only when the user carries neither a role type nor a role name: with either present, any two stores give the same answer |
| Policies.TypeIsCaseSensitive | src/policies/admin-only.ts:50-53 | type `Admin` with name `Editor` is refused, while name `ADMIN` alone is admitted |
| Policies.AdminTypePassesBoth | src/policies/admin-only.ts:50 | a user with role type `admin` passes both `admin-only` and `cms-role` |
| Policies.AdminTypeResolves | src/policies/admin-only.ts:30-34 | a carried role type `admin` is the resolved type, whatever the store holds |
| Policies.AdminTypeLabel | src/policies/cms-role.ts:6-9 | a role of type `admin` has the label `admin` |
| Policies.NamedAdminPassesOnlyAdminOnly | src/policies/admin-only.ts:51 | a role named `Admin` whose type is `guest` passes `admin-only` but not `cms-role` |
| Policies.GuestIsNoRole | src/policies/cms-role.ts:9-13 | `guest` is its own label and not an allowed role |
| Policies.AdminOnly | src/policies/admin-only.ts:1-54 | with a session user the session is unchanged and access is granted exactly when the resolved role type is `admin` or the name is `admin` ignoring case; without one, the user named by a bearer token is stored in the session when found and decides the same way; no token and no user denies |
| Policies.SafePage | src/policies/public-defaults.ts:19-22 | the page equals the number when the value converts to a positive finite number, and is 1 otherwise |
| Policies.SafePageSize | src/policies/public-defaults.ts:20-23 | the page size lies in 1..100; a positive finite number is capped at 100, anything else gives 25 |
| Policies.PublicQuery | src/policies/public-defaults.ts:7-25 | `publicationState` becomes `live` and `sort` becomes `publishedAt:desc` only when falsy; every other query key except `pagination` is unchanged; pagination becomes an object holding a page ≥ 1 and a page size in 1..100, with every other key of the incoming pagination object preserved |
| Policies.PublicQueryPageSource | src/policies/public-defaults.ts:15-16 | a non-nullish nested `pagination.page` is used before the top-level `page` |
| Policies.SafeValuesFixed | src/policies/public-defaults.ts:22-23 | a page and page size already in range are kept as they are |
| Policies.PublicQueryIdempotent | src/policies/public-defaults.ts:3-28 | applying the policy to its own output changes nothing |
| Policies.ApplyPublicDefaults | src/policies/public-defaults.ts:3-28 | the policy always allows the request; without a query nothing changes; with one, the query is rewritten to the defaulted and clamped query |
| CacheControl.IsAllowed | src/middlewares/cache-control.ts:14-24 | an allowed path lies under `/api/` and is at least as long as the shortest entry `/api/tags` |
| CacheControl.CacheHeader | src/middlewares/cache-control.ts:1-31 | non-GET requests and `/admin` paths get no header; `/uploads` paths get the immutable header; `/api` paths get the public header when under an allow-list entry and `no-store` otherwise; all other paths get none |
| CacheControl.DistinctRoots | src/middlewares/cache-control.ts:7-13 | no path starts with more than one of `/admin`, `/uploads` and `/api`, so the order of the checks decides nothing else |
| CacheControl.EntriesAreCached | src/middlewares/cache-control.ts:14-24 | every allow-list entry, and every path below it after a `/`, gets the public caching header |
| CacheControl.ExtendedNameIsNotCached | src/middlewares/cache-control.ts:22-26 | a path that merely extends an entry's name, such as `/api/articlesX`, gets `no-store` |
| Roles.RoleLabel | src/policies/cms-role.ts:5-9 | the label is the role type when it is a non-empty string, else the name, trimmed and lower-cased; no blanks at the edges and no upper-case letters |
| Roles.NormalizeRoleType | src/api/admin-user/controllers/admin-user.ts:44-54 | yields only the four CMS roles; `admin` exactly when the label is `admin` or `administrator`; otherwise the label itself; nothing exactly when the label is neither a role nor `administrator` |
| Roles.ParseAuthorRole | src/api/author/controllers/author.ts:25-30 | yields the trimmed string exactly when it is one of the four roles as spelled, with no case folding |
| Roles.LowerWordIsItsOwnLabel | src/policies/cms-role.ts:9 | a word of lower-case letters is its own trimmed, lower-cased label |
| Roles.IsCmsRole | src/api/admin-user/controllers/admin-user.ts:52-53 | every one of the four roles is a non-empty lower-case word without blanks, and none is `administrator` |
| Roles.LowerRoleReadsAlike | src/api/author/controllers/author.ts:25-30 | a role spelled in lower case reads the same through `parseAuthorRole` and `normalizeRoleType` |
| Roles.RoleTypeOfStringIsUndefined | src/api/admin-user/controllers/admin-user.ts:44-46 | `normalizeRoleType` of a bare string is always undefined, because a string has no `type` or `name` |
| Html.FindIgnoringCase | src/api/article/content-types/article/lifecycles.js:26-27 | the first position at or after `from` where the marker starts ignoring case, with none before it, or none at all |
| Html.FindChar | src/api/article/content-types/article/lifecycles.js:28 | the first position at or after `from` holding the character, with none before it, or none at all |
| Html.RemoveBlocks | src/api/article/content-types/article/lifecycles.js:26-27 | removing `<script>` or `<style>` blocks never lengthens the text, and text with no opening marker (in any case) is returned unchanged |
| Html.TagsToSpaces | src/api/article/content-types/article/lifecycles.js:28 | turning tags into spaces never lengthens the text, and text without `<` is returned unchanged |
| Html.TrimInfix | src/api/article/content-types/article/lifecycles.js:30 | `trim` returns a contiguous part of its input |
| Html.SpacingOfInfix | src/api/article/content-types/article/lifecycles.js:29-30 | a contiguous part of single-spaced text is single-spaced |
| Html.CollapsedSpacing | src/api/article/content-types/article/lifecycles.js:29 | after `replace(/\s+/g, ' ')` every white space is an ASCII space and no two are adjacent |
| Html.CollapsedTextIsClean | src/api/article/content-types/article/lifecycles.js:29-30 | collapsing then trimming leaves no white space at the ends, only single ASCII spaces inside |
| Html.StripHtml | src/api/article/content-types/article/lifecycles.js:24-30 | every text `stripHtml` returns has no white space at the ends and only single ASCII spaces inside |
| Slug.KeepWordSpaceHyphen | src/api/article/controllers/article.ts:19 | `replace(/[^\w\s-]/g, '')` never lengthens the text and keeps only word characters, white space and hyphens |
| Slug.DropLeadingHyphens | src/api/article/controllers/article.ts:23 | drops the leading hyphens: a suffix that does not start with a hyphen |
| Slug.DropTrailingHyphens | src/api/article/controllers/article.ts:23 | drops the trailing hyphens: a prefix that does not end with a hyphen |
| Slug.StripHyphens | src/api/article/controllers/article.ts:23 | `replace(/^-+\|-+$/g, '')` leaves no hyphen at either end |
| Slug.StripOneHyphen | src/api/article/content-types/article/lifecycles.js:22 | `replace(/^-\|-$/g, '')` never lengthens the text |
| Slug.StripHyphensInfix | src/api/article/controllers/article.ts:23 | the hyphen strip returns a contiguous part of its input |
| Slug.StripHyphensKeepsChars | src/api/article/controllers/article.ts:23 | the hyphen strip keeps any property all input characters have |
| Slug.StripHyphensNoDouble | src/api/article/controllers/article.ts:23 | the hyphen strip introduces no doubled hyphen |
| Slug.StripHyphensIdentity | src/api/article/controllers/article.ts:23 | a text without hyphens at its ends is left unchanged |
| Slug.StripOneHyphenShape | src/api/article/content-types/article/lifecycles.js:21-22 | after the hyphen collapse, stripping one hyphen at each end leaves none at either end and keeps the rest |
| Slug.KeepIdentity | src/api/article/controllers/article.ts:19 | a text of word characters, white space and hyphens is kept whole |
| Slug.KeepDropsAll | src/api/article/controllers/article.ts:19 | a text with none of them is dropped entirely |
| Slug.Slugify | src/api/article/controllers/article.ts:16-23 | every `slugify` result uses only a–z, 0–9, `_` and `-`, has no `--` and no hyphen at either end |
| Slug.KeepSubsequence | src/api/article/controllers/article.ts:18-19 | the characters kept from a lower-cased text are not upper-case letters |
| Slug.SlugifyFixesSlug | src/api/article/controllers/article.ts:16-23 | a string of slug shape is its own slug |
| Slug.SlugifyIdempotent | src/api/article/controllers/article.ts:16-23 | slugifying a slug changes nothing |
| Slug.SlugifyOfNonAscii | src/api/article/controllers/article.ts:16-23 | a text with no ASCII letter, digit, `_` or `-` (an all-Devanagari headline, say) has the empty slug |
| Slug.LowerOfNonWord | src/api/article/controllers/article.ts:18 | lower-casing creates no word character or hyphen |
| Slug.HyphensOnlyStripToEmpty | src/api/article/controllers/article.ts:22-23 | a run of hyphens trims and strips to nothing |
| Slug.SpacesBecomeHyphens | src/api/article/controllers/article.ts:20-21 | white space alone turns into hyphens alone |
| Slug.ReplaceRunsCharsKeep | src/api/article/controllers/article.ts:19 | of a text with no word character or hyphen only white space is kept |
| Slug.StripHyphensOfHyphens | src/api/article/controllers/article.ts:23 | a text of hyphens strips to nothing |
| Slug.ToSlug | src/api/article/content-types/article/lifecycles.js:16-22 | every `toSlug` result uses only a–z, 0–9, U+0900–U+097F and `-`, has no `--` and no hyphen at either end |
| Slug.HyphenRunsCollapsed | src/api/article/content-types/article/lifecycles.js:21 | after `replace(/-+/g, '-')` no two hyphens are neighbours |
| Seo.Truncate | src/api/article/controllers/article.ts:161-166 | blank input gives `''`; a trimmed text that fits is returned as it is; a longer one becomes a prefix of it followed by `…`; for a length of at least 1 the result never exceeds it, and it has no white space at its ends |
| Seo.Cut | src/api/article/controllers/article.ts:165 | the cut is a prefix of the text followed by `…`, and at most `max(1, maxLength)` long |
| Seo.CutShape | src/api/article/controllers/article.ts:165 | the cut text is a prefix of the input plus `…`, within the length and without white space at its ends |
| Seo.LifecycleTruncate | src/api/article/content-types/article/lifecycles.js:32-36 | for every non-negative length the lifecycle's `truncate` equals the controllers' `truncateText`, so one definition serves both; a negative length leaves only `…` |
| Seo.TruncateIdempotent | src/api/article/controllers/article.ts:161-166 | truncating a truncated text again changes nothing |
| Seo.HasBrand | src/api/article/controllers/article.ts:173-174 | a title holding `Rampur News` as written, or `रामपुर न्यूज़`, names the site (the English test ignores case) |
| Seo.WithBrand | src/api/article/controllers/article.ts:177 | the core is kept as the prefix; with the brand found it is the core alone, otherwise the result names the site |
| Seo.BrandedTitleNamesSite | src/api/article/controllers/article.ts:169-178 | whatever the title and category, the first title tried names the site: a brand in the base title survives in the core, else the suffix adds it |
| Seo.BaseTitle | src/api/article/controllers/article.ts:169-170 | the base title is non-empty and trimmed (the Hindi site name when the title is blank) |
| Seo.JoinedNoSpaceAtEdges | src/api/article/controllers/article.ts:176 | joining two trimmed, non-empty texts with a separator keeps the ends free of white space |
| Seo.CoreNoSpaceAtEdges | src/api/article/controllers/article.ts:176-177 | the title core and its branded form have no white space at their ends |
| Seo.ArticleTitleOf | src/api/article/controllers/article.ts:176-186 | the branded core when it fits in 60; else the unbranded core when it fits; else the branded base title or its truncation; the result is never empty or longer than 60 |
| Seo.ArticleSeoTitle | src/api/article/controllers/article.ts:168-187 | `buildSeoTitle` is 1..60 characters and starts with the base title or truncates the branded base title; the brand suffix is never added when the title names the site |
| Seo.EditorialTitleOf | src/api/editorial/controllers/editorial.ts:109-114 | the branded `<title> \| <type label>` when it fits in 60, else the branded base title or its truncation; never empty or longer than 60 |
| Seo.EditorialSeoTitle | src/api/editorial/controllers/editorial.ts:92-115 | `buildSeoTitle` of an editorial is 1..60 characters and starts with the base title or truncates the branded base title; an unknown type gets the label `संपादकीय` |
| Seo.SeoDescription | src/api/article/controllers/article.ts:189-195 | 1..160 characters: the truncated excerpt when it has text, else the truncated stripped content when that has text, else the default sentence |
| Seo.DefaultDescriptionsFit | src/api/editorial/controllers/editorial.ts:121 | both default sentences (article and editorial) are non-empty and fit in 160 |
| Seo.DropLeadingSlashes | src/api/article/controllers/article.ts:198 | drops the leading slashes: a suffix not starting with `/` |
| Seo.DropTrailingSlashes | src/api/article/controllers/article.ts:198 | drops exactly the trailing slashes: a prefix of the input that does not end with `/`, and everything after it is `/` |
| Seo.PathPart | src/api/article/controllers/article.ts:198-199 | the trimmed text without slashes at either end |
| Seo.SiteUrl | src/api/article/controllers/article.ts:4 | a configured address that is not blank is trimmed and loses its trailing slashes; otherwise `https://rampurnews.com`; it never ends with `/` |
| Seo.ArticleCanonicalUrl | src/api/article/controllers/article.ts:197-202 | `''` exactly when either part is empty after trimming and slash stripping; otherwise exactly `<site>/<category>/<slug>`, where `site` is the caller's `SITE_URL` (`Seo.SiteUrl`) |
| Seo.EditorialCanonicalUrl | src/api/editorial/controllers/editorial.ts:125-131 | `''` exactly for a blank slug; otherwise `<site>/editorials/<slug>` with the outer slashes stripped, where `site` is the caller's `SITE_URL` (`Seo.SiteUrl`) |
| Seo.CanonicalUrlJoints | src/api/article/controllers/article.ts:197-202 | with `SITE_URL` as the site (line 4), a non-empty canonical URL starts with the site and has exactly one slash where the site meets the category and where the category meets the slug |
| Seo.PathPartIdentity | src/api/article/controllers/article.ts:198 | a part without white space or slashes at its ends is kept as it is |
| Seo.PathPartOfSlug | src/api/article/controllers/article.ts:198 | a slug made by `slugify` goes into the canonical URL unchanged |
| Seo.ArticleCanonicalUrlOfSlugs | src/api/article/controllers/article.ts:197-202 | for two non-empty slugified parts the canonical URL is exactly `site/<category>/<slug>` |
| Seo.CountNonEmpty | src/api/editorial/controllers/editorial.ts:161 | the word count never exceeds the number of pieces |
| Seo.WordCount | src/api/editorial/controllers/editorial.ts:157-161 | the word count of the tag-free text is at most its length, and a non-empty text without a space is one word |
| Seo.ReadMinutes | src/api/editorial/controllers/editorial.ts:155-164 | missing content gives 2; any other content gives at least 1, exactly 1 under 300 words, and otherwise the word count rounded half up to a multiple of 200 |
| Seo.ReadTime | src/api/editorial/controllers/editorial.ts:155-164 | the reading time is a string of decimal digits whose value is the minutes, followed by ` मिनट` |
| Keywords.Deduped | src/api/article/controllers/article.ts:217-223 | the filter keeps only non-empty input keywords not already seen, never two equal ignoring case, and never lengthens the list |
| Keywords.DedupedComplete | src/api/article/controllers/article.ts:217-223 | no keyword is lost: every non-empty candidate was either seen before or is kept in some spelling |
| Keywords.DedupedAppend | src/api/article/controllers/article.ts:218 | filtering a concatenation is filtering the first part, then the second against what the first has seen, so earlier candidates keep their order and come first |
| Keywords.KeepFirstCaseless | src/api/article/controllers/article.ts:217-223 | the loop with a `seen` set computes the case-insensitive first-occurrence filter |
| Keywords.NonEmpty | src/api/article/controllers/article.ts:215 | `filter(Boolean)` keeps exactly the non-empty entries of the input, and never lengthens it |
| Keywords.TagTexts | src/api/article/controllers/article.ts:216 | each tag text is non-empty and trimmed |
| Keywords.NewsCandidates | src/api/article/controllers/article.ts:205-218 | every candidate has text; the tag texts come first; the trimmed category name (when it has text) and every fixed keyword are candidates |
| Keywords.NewsKeywordList | src/api/article/controllers/article.ts:204-225 | at most 12 keywords, each a non-empty candidate, no two equal ignoring case |
| Keywords.NewsKeywordsTagsFirst | src/api/article/controllers/article.ts:216-218 | the tags come first in their own order, ahead of the category and the fixed keywords |
| Keywords.BuildNewsKeywords | src/api/article/controllers/article.ts:204-225 | the result is the keyword list joined with `, ` |
| Keywords.EditorialKeywordList | src/api/editorial/controllers/editorial.ts:203-237 | at most 12 keywords, each a non-empty piece of the comma-split phrases, no two equal ignoring case |
| Keywords.EditorialTypeKeywords | src/api/editorial/controllers/editorial.ts:204-213 | every type label holds a comma between two names and neither starts nor ends with one |
| Keywords.EditorialPhrases | src/api/editorial/controllers/editorial.ts:214-224 | the phrases hold the type label and the seven fixed keywords, with the author name first when it is non-empty and nowhere when it is empty |
| Keywords.Pieces | src/api/editorial/controllers/editorial.ts:226 | splitting every phrase at commas and trimming gives at least one piece per phrase, each trimmed |
| Keywords.FirstPhraseFirst | src/api/editorial/controllers/editorial.ts:226-234 | a first phrase with text and no comma is the first keyword kept |
| Keywords.EditorialKeywordsAuthorFirst | src/api/editorial/controllers/editorial.ts:224 | an author name with text and no comma is the editorial's first keyword |
| Keywords.SplitWithoutSeparator | src/api/editorial/controllers/editorial.ts:227 | a text without a comma splits into itself |
| Keywords.BuildEditorialKeywords | src/api/editorial/controllers/editorial.ts:203-237 | the result is the editorial keyword list joined with `, ` |
| Headline.HasExcessivePunctuation | src/api/article/content-types/article/lifecycles.js:38-43 | holds exactly when the text has more than three `!`/`?` in all, or some `!` or `?` directly followed by the same character |
| Headline.IsAllCaps | src/api/article/content-types/article/lifecycles.js:45-50 | holds exactly when the text has at least six ASCII letters and the upper-case share of them is above 0.8 |
| Headline.ContainsClickbait | src/api/article/content-types/article/lifecycles.js:52-55 | holds exactly when one of the listed phrases occurs in the lower-cased text |
| Headline.RepeatedMarkAt | src/api/article/content-types/article/lifecycles.js:41 | the `([!?])\1` test holds exactly when some `!` or `?` is directly followed by the same character |
| Headline.AllCapsRatio | src/api/article/content-types/article/lifecycles.js:49 | the ratio test `upper / total > 0.8` is the integer test `5·upper > 4·total` |
| Headline.AllCapsHasUpper | src/api/article/content-types/article/lifecycles.js:45-50 | an all-caps headline has at least five upper-case letters |
| Headline.ContainsAnyAt | src/api/article/content-types/article/lifecycles.js:54 | `some(includes)` holds exactly when some listed phrase occurs |
| Headline.ClickbaitEssentialPhrases | src/api/article/content-types/article/lifecycles.js:8-14 | of the five listed phrases three decide the test, since one is listed twice and one contains another |
| Headline.ValidateHeadlines | src/api/article/content-types/article/lifecycles.js:148-158 | all-caps in either headline fails first; otherwise excessive punctuation; otherwise clickbait; the check passes exactly when none holds |
| Status.DeriveStatus | src/api/article/controllers/article.ts:82-86 | `published` exactly when there is a publication date; `scheduled` exactly when there is none but a scheduled date; `draft` exactly when there is neither |
| Status.DateText | src/api/article/controllers/article.ts:72-81 | a truthy non-array value under the key gives its non-empty text; else a truthy non-array legacy value does; text is non-empty only when one of the two is truthy |
| Status.EntityStatus | src/api/article/controllers/article.ts:72-86 | a truthy non-array `publishedAt`, or else `published_at`, makes the entity published; without either, a truthy non-array `scheduledAt`, or else `scheduled_at`, makes it scheduled; published needs a truthy publication date under either key, scheduled a truthy scheduled date under either key; with none of the four it is a draft |
| Status.PublishedWins | src/api/article/controllers/article.ts:72-86 | a publication date under either key spelling (`publishedAt`, else `published_at`) makes the entity published whatever its scheduled date |
| Status.Trichotomy | src/api/exam/controllers/exam.ts:39-41 | two date strings are equal or exactly one is before the other |
| Status.ExamStatus | src/api/exam/controllers/exam.ts:38-42 | `ongoing` exactly when the exam date is today, `upcoming` exactly when later, `completed` exactly when earlier |
| Status.ApplicationStatus | src/api/exam/controllers/exam.ts:44-51 | `upcoming` exactly when the start is after today or there are no dates; `closed` exactly when not upcoming by start and the end is before today; `open` in every remaining case with a date |
| Status.AdmitCardStatus | src/api/exam/controllers/exam.ts:53-57 | `available` exactly for a date on or before today, `upcoming` exactly for a later date, `not-released` exactly when there is no date |
| Status.ResultStatus | src/api/exam/controllers/exam.ts:62-66 | `declared` exactly for a date on or before today, `expected` exactly for a later date, `not-declared` exactly when there is no date |
| Status.LexLessEqTransitive | src/api/exam/controllers/exam.ts:55 | string `<=` is transitive |
| Status.DeclaredStaysDeclared | src/api/exam/controllers/exam.ts:53-66 | a declared result stays declared, and an available admit card stays available, on every later day |
| Status.CompletedStaysCompleted | src/api/exam/controllers/exam.ts:38-42 | a completed exam stays completed on every later day |
| Status.ClosedStaysClosed | src/api/exam/controllers/exam.ts:44-51 | closed applications stay closed on every later day |
| Article.HeroLimit | src/api/article/controllers/article.ts:700-701 | the hero limit lies in 1..100 and is 15 when no number is given |
| Article.FilterOut | src/api/article/controllers/article.ts:734 | `filter((e) => !ids.has(e.id))` keeps exactly the ids outside the excluded set, never more than the input |
| Article.PrefixMembers | src/api/article/controllers/article.ts:734 | every element of a `slice(0, n)` is an element of the list |
| Article.FilterOutDistinct | src/api/article/controllers/article.ts:734 | filtering keeps ids distinct |
| Article.HeroCombined | src/api/article/controllers/article.ts:704-736 | the combined list opens with the first min(3, limit) featured ids; after them come the first breaking ids among the 2·limit fetched that are not featured, in their order, exactly as many as fit in limit − featuredLimit or as there are; it never exceeds the limit |
| Article.Hero | src/api/article/controllers/article.ts:699-748 | the hero is the combined list when it is non-empty and the latest `limit` published articles otherwise, never more than the limit |
| Article.HeroOpensWithFeatured | src/api/article/controllers/article.ts:730-736 | with featured articles in the store the hero opens with the newest of them |
| Article.HeroSmallLimitHasNoBreaking | src/api/article/controllers/article.ts:704-705 | a limit of three or less leaves no room for breaking articles |
| Article.HeroDistinct | src/api/article/controllers/article.ts:731-736 | distinct ids in the store give a hero without repeats |
| Article.SlugRoot | src/api/article/controllers/article.ts:318 | the root is never empty: the slug of the base, else `article-<timestamp>` |
| Article.FirstFree | src/api/article/controllers/article.ts:319-337 | the slug found is free (a match on the excluded id counts as free) or is the timestamp fallback, which is the answer once 50 attempts are reached |
| Article.FirstFreeIsFirst | src/api/article/controllers/article.ts:319-337 | the search returns the first free candidate among root, root-2 … root-49 (a match on the excluded id counts as free), and `root-<timestamp>` when none is free |
| Article.EnsureUniqueSlug | src/api/article/controllers/article.ts:317-338 | the loop returns exactly the first free candidate of the slug root, or the timestamped fallback |
| Article.SearchSlug | src/api/article/controllers/article.ts:319-337 | the probing loop, started at the root, computes the first free candidate |
| Article.FirstFreeStep | src/api/article/controllers/article.ts:329-334 | one probe: a free candidate is the answer, a taken one defers to `root-<attempt + 1>` |
| Article.SuffixedIsSlug | src/api/article/controllers/article.ts:334 | a slug followed by `-<number>` is a slug |
| Article.KindIsSlug | src/api/editorial/controllers/editorial.ts:432 | `article` and `editorial` are slugs |
| Article.RootIsSlug | src/api/editorial/controllers/editorial.ts:432 | the root of the search, slug or timestamped fallback, is a slug |
| Article.UniqueSlugIsSlug | src/api/article/controllers/article.ts:317-338 | every slug the search can return has slug shape |
| Article.FreeRootIsUsed | src/api/article/controllers/article.ts:329-330 | a free slugified title is used as it is |
| Article.ParseDateToIso | src/api/article/controllers/article.ts:59-67 | a falsy value has no date |
| Article.SetDefined | src/api/article/controllers/article.ts:469 | `set(key, value)` writes the key only for a defined value and changes nothing else |
| Article.ScheduledStep | src/api/article/controllers/article.ts:469 | only `scheduledAt` can change, and a partial update whose request lacks `scheduledAt` changes nothing |
| Article.StatusStep | src/api/article/controllers/article.ts:553-569 | the status mapping writes nothing but `scheduledAt` and `publishedAt` |
| Article.StatuslessStep | src/api/article/controllers/article.ts:565-569 | without a recognised status only `publishedAt` can change, and only to a non-empty date: an empty parsed date is falsy and writes nothing |
| Article.ScheduledStatusStep | src/api/article/controllers/article.ts:559-564 | the scheduled branch writes nothing but `scheduledAt` and `publishedAt` |
| Article.ApplyScheduledDate | src/api/article/controllers/article.ts:469 | the method computes the `scheduledAt` step |
| Article.ApplyStatus | src/api/article/controllers/article.ts:553-569 | the method computes the status mapping |
| Article.ApplyScheduledStatus | src/api/article/controllers/article.ts:559-564 | the method computes the scheduled branch |
| Article.ApplyPublicationDates | src/api/article/controllers/article.ts:469-569 | the method writes the requested scheduled date, then applies the status mapping |
| Article.StatuslessModesAgree | src/api/article/controllers/article.ts:565-568 | without a recognised status, a partial update and a full one write the same dates |
| Article.ScheduledFallsBackToPublishedDate | src/api/article/controllers/article.ts:559-564 | a scheduled create whose `scheduledAt` does not parse is scheduled at the publication date, with no publication date |
| Article.ScheduledFillsFromPublishedDate | src/api/article/controllers/article.ts:561-563 | the scheduled branch falls back to the publication date when the request's scheduled date does not parse |
| Article.DraftAndScheduledClearDate | src/api/article/controllers/article.ts:557-564 | a draft or scheduled request clears `publishedAt`, and a scheduled date already in `data` is kept |
| Article.StatusStepUnclearedBranches | src/api/article/controllers/article.ts:557-564 | a draft request only clears `publishedAt`; a scheduled one takes the scheduled branch |
| Article.StatusNamesDiffer | src/api/article/controllers/article.ts:555-559 | the three status names are distinct, so at most one branch applies |
| Article.ScheduledKeepsStoredDate | src/api/article/controllers/article.ts:560-561 | the scheduled branch always clears `publishedAt` and touches nothing else when a scheduled date is stored |
| Article.PublishedRequestIsDated | src/api/article/controllers/article.ts:555-556 | a published request always ends with a publication date |
| Lifecycle.PublisherRole | src/api/article/content-types/article/lifecycles.js:69 | a truthy role type is the role, else a truthy role name, else the empty string; without a user it is the empty string |
| Lifecycle.EnsureEditorPublish | src/api/article/content-types/article/lifecycles.js:66-73 | fails, and only with the editors-only error, exactly when publishing and the user's role type or name is non-empty and neither `admin` nor `editor`; no user, or not publishing, always passes |
| Lifecycle.EditorsMayPublish | src/api/article/content-types/article/lifecycles.js:69-70 | a user of role type `admin` or `editor` may publish whatever the role name |
| Lifecycle.ResolveMediaId | src/api/article/content-types/article/lifecycles.js:75-85 | a number is itself; null, undefined and booleans give undefined; any other result is a number, `NaN` or an infinity |
| Lifecycle.ResolveMediaIdOfPrintedId | src/api/article/content-types/article/lifecycles.js:78-81 | an id written as decimal text, or an object whose `id` is that text or number, resolves to the number |
| Lifecycle.ValidateFeaturedImage | src/api/article/content-types/article/lifecycles.js:87-95 | passes exactly when the id names an upload file at least 1200 px wide; a falsy id fails as missing; a too-narrow failure names a known, narrow file |
| Lifecycle.WithDerivedSlug | src/api/article/content-types/article/lifecycles.js:187 | a truthy slug is kept; with none, a truthy title gives a slug of lifecycle shape; no other field changes |
| Lifecycle.OwnSlugIsFree | src/api/article/content-types/article/lifecycles.js:106-113 | an article never conflicts with its own stored slug on update |
| Lifecycle.WithCanonical | src/api/article/content-types/article/lifecycles.js:160-177 | without a slug nothing changes; with one, `canonicalUrl` is `SITE_URL[/category]/slug`, a missing or falsy `seo.canonicalURL` is set to that same URL, a present one is kept, and every other `seo` key is kept; no other field changes |
| Lifecycle.CanonicalFor | src/api/article/content-types/article/lifecycles.js:115-118 | the URL is the site, a slash, then the category slug and a slash when there is a category, then the article slug |
| Lifecycle.CategorySlugFor | src/api/article/content-types/article/lifecycles.js:162-170 | a truthy stored category slug is used as it is; without one, a category id in the data whose category has a slug gives that slug as text; otherwise the result is the stored slug or text |
| Lifecycle.CanonicalAgreesWithController | src/api/article/content-types/article/lifecycles.js:115-118 | the hook's canonical URL of an article with a category equals the one the article controller builds from the same slugs |
| Lifecycle.SyncPair | src/api/article/content-types/article/lifecycles.js:121-126 | a defined flag is never changed; when exactly one spelling is defined the other receives its truth value; nothing else changes |
| Lifecycle.SyncedFlags | src/api/article/content-types/article/lifecycles.js:120-133 | after `syncFlags`, defined flags and every other field are kept, and a flag given in one spelling reads the same in both |
| Lifecycle.SetIfFalsy | src/api/article/content-types/article/lifecycles.js:138 | `if (!data[k]) data[k] = v` writes only a falsy `k` and nothing else |
| Lifecycle.DerivedDescription | src/api/article/content-types/article/lifecycles.js:139 | a derived meta description is at most 160 characters |
| Lifecycle.DerivedShortHeadline | src/api/article/content-types/article/lifecycles.js:145 | a derived short headline is at most 110 characters |
| Lifecycle.FillSteps | src/api/article/content-types/article/lifecycles.js:138-145 | only the five SEO fields may change, a truthy field is never overwritten, and a falsy meta description or short headline takes the stored value, else the derived one |
| Lifecycle.FillStepsInOrder | src/api/article/content-types/article/lifecycles.js:138-145 | the fill is the five conditional assignments in source order, each reading the fields the earlier ones wrote |
| Lifecycle.FilledSeo | src/api/article/content-types/article/lifecycles.js:135-146 | `fillSeoFields` never overwrites a truthy field or touches a non-SEO field; with neither a value nor a stored one, meta description and short headline are the derived texts |
| Lifecycle.HeadlineCheck | src/api/article/content-types/article/lifecycles.js:148-158 | the hook fails exactly when `validateHeadlines` fails on `data.title` and `data.short_headline`, and then with a headline error |
| Lifecycle.PublishGate | src/api/article/content-types/article/lifecycles.js:197-202 | the image check runs first and its failure is the answer; then a missing meta description; then a missing short headline; it passes exactly when all three hold |
| Lifecycle.WithDiscoverFlag | src/api/article/content-types/article/lifecycles.js:195 | only `discoverEligible` is written, with the computed eligibility |
| Lifecycle.PrefixKeepsPublishedAt | src/api/article/content-types/article/lifecycles.js:185-189 | the steps before the publishing checks never change `publishedAt` |
| Lifecycle.AfterFlag | src/api/article/content-types/article/lifecycles.js:225-238 | without the gate the hook passes; when the gate applies and the hook passes, the featured image is a file at least 1200 px wide and a meta description and short headline are present in the data or the stored record; a failing check leaves the data as it was, a pass is followed by `setCanonical`; it never reports a taken slug |
| Lifecycle.AfterFill | src/api/article/content-types/article/lifecycles.js:218-238 | a bad headline is the failure, before any other check; a passing hook that publishes or updates a published article has a wide image, a meta description and a short headline, and a publishing user passed the editor check; it never reports a taken slug |
| Lifecycle.CreateRun | src/api/article/content-types/article/lifecycles.js:183-205 | `beforeCreate` fails with the slug error exactly when the synchronised data's slug (derived from the title when missing) is taken |
| Lifecycle.UpdateRun | src/api/article/content-types/article/lifecycles.js:207-239 | `beforeUpdate` fails with the slug error exactly when the data's slug, else the stored slug, is held by another article |
| Lifecycle.PublishedCreateIsComplete | src/api/article/content-types/article/lifecycles.js:183-205 | a created article that is published and passes carries a meta description and a short headline, and its user may publish |
| Lifecycle.PublishedUpdateIsComplete | src/api/article/content-types/article/lifecycles.js:207-239 | an update of an article that is or becomes published passes only with a meta description and a short headline in the data or the stored record |
| Lifecycle.ArticleEvent.constructor | src/api/article/content-types/article/lifecycles.js:184 | the event holds the request's `data` |
| Lifecycle.ArticleEvent.SyncFlags | src/api/article/content-types/article/lifecycles.js:120-133 | the data becomes the flag-synchronised data |
| Lifecycle.ArticleEvent.DeriveSlug | src/api/article/content-types/article/lifecycles.js:187 | the data becomes the data with a derived slug |
| Lifecycle.ArticleEvent.FillSeoFields | src/api/article/content-types/article/lifecycles.js:135-146 | the data becomes the SEO-filled data |
| Lifecycle.ArticleEvent.SetCanonical | src/api/article/content-types/article/lifecycles.js:160-177 | the data becomes the data with its canonical URL set |
| Lifecycle.ArticleEvent.Finish | src/api/article/content-types/article/lifecycles.js:189-204 | fills the SEO fields, then runs the remaining checks; outcome and data are those of the specification |
| Lifecycle.ArticleEvent.CheckAndPublish | src/api/article/content-types/article/lifecycles.js:190-204 | headlines, editor check, Discover flag, publishing checks and canonical URL in source order; outcome and data are those of the specification |
| Lifecycle.ArticleEvent.PublishChecks | src/api/article/content-types/article/lifecycles.js:197-204 | runs the publishing checks when the gate holds, then sets the canonical URL; outcome and data are those of the specification |
| Lifecycle.ArticleEvent.BeforeCreate | src/api/article/content-types/article/lifecycles.js:183-205 | the outcome and the new data are those of the create run: a taken slug fails before anything else is checked |
| Lifecycle.ArticleEvent.BeforeUpdate | src/api/article/content-types/article/lifecycles.js:207-239 | the outcome and the new data are those of the update run, with the stored record's slug, images and publication state taken into account |
| Lifecycle.DiscoverEligible | src/api/article/content-types/article/lifecycles.js:96-104 | an article is eligible for Discover exactly when its featured image would pass the publishing image check |
| Lifecycle.ShouldPublish | src/api/article/content-types/article/lifecycles.js:179-180 | asking to publish needs a `publishedAt` property; every truthy value asks, and of the falsy ones only `false`, `0` and `NaN` do |
| Editorial.StoredEditorialType | src/api/editorial/controllers/editorial.ts:294-298 | the reported type is always one of the five editorial types: the stored one when it is one of them, `editorial` otherwise |
| Editorial.Present | src/api/editorial/controllers/editorial.ts:275 | `filter(Boolean)` keeps exactly the truthy entries, each as often as it occurs, and nothing else |
| Editorial.Insert | src/api/editorial/controllers/editorial.ts:276-280 | inserting into a newest-first list keeps it newest first and adds exactly the one element |
| Editorial.SortDescending | src/api/editorial/controllers/editorial.ts:276-280 | the sort result is ordered by decreasing publication time and is a permutation of its input |
| Editorial.SortStable | src/api/editorial/controllers/editorial.ts:276-280 | the sort is stable: the articles of any one publication time keep their input order |
| Editorial.SortNewestFirst | src/api/editorial/controllers/editorial.ts:276-280 | the related articles come out newest first, as a permutation of the input, with equal times in their input order |
| Editorial.RelatedArticles | src/api/editorial/controllers/editorial.ts:272-282 | at most five related articles, all present, newest first |
| Editorial.TakeIsTop | src/api/editorial/controllers/editorial.ts:281 | slicing a newest-first list drops nothing newer than anything it keeps |
| Editorial.TopOfSorted | src/api/editorial/controllers/editorial.ts:276-281 | the first five of the sorted list are the newest present articles, drawn from the input, and all of them when there are five or fewer |
| Editorial.RelatedAreNewest | src/api/editorial/controllers/editorial.ts:272-282 | the related articles shown are the newest present ones of the editorial; no omitted article is newer than a shown one, and five or fewer are all shown |
| Editorial.RequestedType | src/api/editorial/controllers/editorial.ts:531-532 | a requested type is accepted only when the input carries `editorialType` and it is one of the five types |
| Editorial.ApplyEditorialType | src/api/editorial/controllers/editorial.ts:530-537 | a valid requested type is written; otherwise a full write stores `editorial` and a partial one leaves the data unchanged; after a full write the stored type is always one of the five |
| Exam.DateOf | src/api/exam/controllers/exam.ts:36-63 | a string date is read as itself; any other value reads as no date |
| Exam.NormalizeExam | src/api/exam/controllers/exam.ts:20-72 | a missing entity gives null; otherwise the result is the normalized record, whose properties the lemmas below state |
| Exam.Prepare | src/api/exam/controllers/exam.ts:22-33 | the id is stringified and the Hindi title and organization fall back to the English ones |
| Exam.ExamStep | src/api/exam/controllers/exam.ts:38-42 | the exam-status step of the normalization |
| Exam.ApplicationStep | src/api/exam/controllers/exam.ts:44-51 | the application-status step of the normalization |
| Exam.AdmitCardStep | src/api/exam/controllers/exam.ts:53-60 | the admit-card-status step of the normalization |
| Exam.ResultStep | src/api/exam/controllers/exam.ts:62-69 | the result-status step of the normalization |
| Exam.Normalized | src/api/exam/controllers/exam.ts:20-72 | every stored property other than the id, the two Hindi fallbacks and the four statuses comes back unchanged |
| Exam.ExamStepSame | src/api/exam/controllers/exam.ts:38-42 | the exam-status step changes only derived keys |
| Exam.ApplicationStepSame | src/api/exam/controllers/exam.ts:44-51 | the application-status step changes only derived keys |
| Exam.AdmitCardStepSame | src/api/exam/controllers/exam.ts:53-60 | the admit-card step changes only derived keys |
| Exam.ResultStepSame | src/api/exam/controllers/exam.ts:62-69 | the result step changes only derived keys |
| Exam.PreparedKeeps | src/api/exam/controllers/exam.ts:22-33 | stringifying the id and the Hindi fallbacks touch no other property |
| Exam.ExamStepKeeps | src/api/exam/controllers/exam.ts:38-42 | the exam-status step touches nothing but `status` |
| Exam.ApplicationStepKeeps | src/api/exam/controllers/exam.ts:44-51 | the application step touches nothing but `applicationStatus` |
| Exam.AdmitCardStepKeeps | src/api/exam/controllers/exam.ts:53-60 | the admit-card step touches nothing but `admitCardStatus` |
| Exam.ResultStepKeeps | src/api/exam/controllers/exam.ts:62-69 | the result step touches nothing but `resultStatus` |
| Exam.StatusStepsKeep | src/api/exam/controllers/exam.ts:38-69 | the four status steps together touch only the four statuses |
| Exam.IdAndHindiFallbacks | src/api/exam/controllers/exam.ts:24-33 | the id comes back as a string; a falsy Hindi title or organization takes a truthy English one, else is kept |
| Exam.ExamStatusRule | src/api/exam/controllers/exam.ts:36-42 | a stored exam status is kept; without one it is derived from a string exam date, and stays absent when there is none |
| Exam.ApplicationStatusRule | src/api/exam/controllers/exam.ts:44-51 | the application status is always present afterwards: the stored one, or the one derived from the two application dates |
| Exam.AdmitCardStatusRule | src/api/exam/controllers/exam.ts:53-60 | the admit-card status is always present and never spelled `notreleased`; without a stored one it is derived from the admit-card date |
| Exam.AdmitCardStepRule | src/api/exam/controllers/exam.ts:53-60 | the admit-card step alone leaves a present status never spelled `notreleased` |
| Exam.ResultStatusRule | src/api/exam/controllers/exam.ts:62-69 | the result status is always present and never spelled `notdeclared`; without a stored one it is derived from the result date |
| Exam.ResultStepRule | src/api/exam/controllers/exam.ts:62-69 | the result step alone leaves a present status never spelled `notdeclared` |
| Microsite.IsModuleType | src/api/microsite-item/controllers/microsite-item.ts:32-49 | a module type is a non-empty string without blanks at its ends, one of the nine listed, compared exactly |
| Microsite.NormalizeItem | src/api/microsite-item/controllers/microsite-item.ts:25-30 | a missing entity gives null; otherwise every payload key comes back with its value, plus `id` as the entity id's string unless the payload carries its own `id`; a payload that is not an object contributes nothing |
| Microsite.FirstPresent | src/api/microsite-item/controllers/microsite-item.ts:53-68 | a `??` chain ending in `undefined` gives a present value or `undefined`, never null |
| Microsite.FirstPresentIsFirst | src/api/microsite-item/controllers/microsite-item.ts:68 | the chain's result is the value of the first key whose value is present, every earlier key being absent; with none present it is `undefined` |
| Microsite.Subtype | src/api/microsite-item/controllers/microsite-item.ts:57 | the subtype is a string or `undefined` |
| Microsite.Defined | src/api/microsite-item/controllers/microsite-item.ts:55-66 | `v ?? undefined` keeps a present value and turns null and undefined into `undefined` |
| Microsite.PickIndexFields | src/api/microsite-item/controllers/microsite-item.ts:51-90 | the index always carries the given module type and the payload slug; no other column is ever null; name and city are the payload's when present |
| Microsite.TitleFallsBackToName | src/api/microsite-item/controllers/microsite-item.ts:53-54 | titles fall back to names only when absent (an empty title is kept), and to `undefined` when both are absent |
| Microsite.SubtypeFillsCategory | src/api/microsite-item/controllers/microsite-item.ts:57-59 | a non-module `type` string becomes the category when none is given, and the subcategory when a category but no subcategory is given; a given category is kept |
| Microsite.IndexDatePrecedence | src/api/microsite-item/controllers/microsite-item.ts:68 | the index date is the first present of exam date, result date, date and publication date |
| Microsite.Incoming | src/api/microsite-item/controllers/microsite-item.ts:210-248 | the stored payload never holds `moduleType`; it holds `type` exactly when the request's `type` is not a module type; every other request key is kept with its value |
| Microsite.RequestedModule | src/api/microsite-item/controllers/microsite-item.ts:200-203 | the module type of a create request is always one of the nine module types |
| Microsite.CreateItem | src/api/microsite-item/controllers/microsite-item.ts:196-224 | create fails exactly when no module type is given or the slug is falsy; otherwise it stores the stripped payload and the index computed from it under the requested module |
| Microsite.MergedPayload | src/api/microsite-item/controllers/microsite-item.ts:250-253 | every incoming key wins, every stored key not sent keeps its value, and no other key appears |
| Microsite.UpdateItem | src/api/microsite-item/controllers/microsite-item.ts:226-264 | a missing item is not found; a stored type that is not a module type is rejected; otherwise the merged payload is stored with its index recomputed under the stored module type |
| Microsite.EmptyUpdateKeepsPayload | src/api/microsite-item/controllers/microsite-item.ts:250-255 | an update that sends nothing succeeds and keeps the stored payload as it was |
| AdminUser.ParseMediaId | src/api/admin-user/controllers/admin-user.ts:56-63 | only a number or a string can give an id; a positive number is itself; a string gives its positive numeric value, and nothing otherwise |
| AdminUser.MediaIdIsRelationId | src/api/admin-user/controllers/admin-user.ts:56-63 | every media id this controller accepts the author controller reads the same way; `true` separates the two readers |
| AdminUser.ExtractAuthorData | src/api/admin-user/controllers/admin-user.ts:70-87 | null exactly when no author field is present in the source; otherwise the fields read from the nested `author` object or the request |
| AdminUser.NestedAuthorTakesPrecedence | src/api/admin-user/controllers/admin-user.ts:71 | a nested `author` object is read instead of the top level, so an empty nested object gives null whatever the top level carries |
| AdminUser.PlainSource | src/api/admin-user/controllers/admin-user.ts:71 | a request without an `author` object is read as its own source |
| AdminUser.NoAuthorFields | src/api/admin-user/controllers/admin-user.ts:78-85 | an empty object carries no author field |
| AdminUser.ListPage | src/api/admin-user/controllers/admin-user.ts:91-92 | page is at least 1, default 1; page size is clamped to 1..100, default 25 |
| AdminUser.Offset | src/api/admin-user/controllers/admin-user.ts:119 | the first row of a page is never negative |
| AdminUser.TotalPages | src/api/admin-user/controllers/admin-user.ts:136 | the page count is the fewest pages that hold every row, 0 for no rows |
| AdminUser.RowOnItsPage | src/api/admin-user/controllers/admin-user.ts:119-136 | every row lies inside exactly the page its index names, and that page is between 1 and the page count |
| AdminUser.FiltersMembers | src/api/admin-user/controllers/admin-user.ts:107-115 | one condition per given parameter and none for an absent one; `active` filters on `blocked` being its negation |
| AdminUser.FiltersOrdered | src/api/admin-user/controllers/admin-user.ts:107-115 | the conditions appear in the order search, role id, role type, active |
| AdminUser.ListFilters | src/api/admin-user/controllers/admin-user.ts:107-115 | the pushes into `and` build exactly the specified condition list |
| AdminUser.QueryFilters | src/api/admin-user/controllers/admin-user.ts:93-115 | the listing searches exactly for `search`, else `q`, and filters on `blocked` exactly when `active` parses as a boolean, negated |
| AdminUser.LocalPart | src/api/admin-user/controllers/admin-user.ts:161 | the part before the first `@`: a prefix of the address holding no `@`, followed by an `@` when the address has one, and the whole address when it has none |
| AdminUser.Username | src/api/admin-user/controllers/admin-user.ts:159-162 | the user name is the requested one, else the e-mail's local part, else `user-<stamp>` |
| AdminUser.ResolveRoleId | src/api/admin-user/controllers/admin-user.ts:178-186 | the role is the requested id, else the role of the requested type when it exists, else the `author` role |
| AdminUser.AuthorRoleAsWritten | src/api/admin-user/controllers/admin-user.ts:210 | the author role of a new account as written is always a CMS role |
| AdminUser.AuthorRole | src/api/admin-user/controllers/admin-user.ts:210 | the intended author role is the account role's CMS type, else the requested type read as a CMS role, else `author` |
| AdminUser.RequestedTypeIsIgnored | src/api/admin-user/controllers/admin-user.ts:210 | as written, when the account's role gives no CMS type the author becomes `author` whatever type was requested |
| AdminUser.NoRoleOfNonObject | src/api/admin-user/controllers/admin-user.ts:44-54 | `normalizeRoleType` of a value that is not an object, such as the requested type string, gives nothing |
| AdminUser.RequestedTypeIsUsed | src/api/admin-user/controllers/admin-user.ts:210 | the intended reading uses the requested type, and differs from the written one exactly when that type names a CMS role other than `author` |
| AdminUser.ResolvedRoleDecides | src/api/admin-user/controllers/admin-user.ts:210 | when the account's role gives a CMS type, both readings give it |
| AdminUser.CreateUser | src/api/admin-user/controllers/admin-user.ts:155-228 | missing e-mail, then missing password, then no resolvable role are rejected in that order and only then; a created account carries the e-mail, password, user name and role resolved, `confirmed` defaulting to true and `blocked` to false; an author profile is linked exactly when author fields were sent, with the account's e-mail, its name defaulting to the user name, and the sent fields |
| AdminUser.CreateRollback | src/api/admin-user/controllers/admin-user.ts:233-255 | a failed create removes the linked author, then the account, then the uploaded avatar, each exactly when it exists |
| AdminUser.DeleteUser | src/api/admin-user/controllers/admin-user.ts:365-380 | a missing account is not found; otherwise its author profile, when there is one, is deleted before the account, and the account is always removed last |
| AdminUser.PatchRoleId | src/api/admin-user/controllers/admin-user.ts:282-287 | update writes the requested role id, else the role of the requested type; with neither, no role, and no `author` fallback |
| AdminUser.PatchKeysDiffer | src/api/admin-user/controllers/admin-user.ts:275-287 | the patch keys are pairwise distinct, so no write overwrites another |
| AdminUser.AccountPatch | src/api/admin-user/controllers/admin-user.ts:275-280 | the patch holds e-mail, user name and password exactly when each is a non-blank string, and `confirmed`/`blocked` exactly when each is a boolean, with those values, and nothing else |
| AdminUser.UserPatch | src/api/admin-user/controllers/admin-user.ts:275-287 | the account patch plus `role` exactly when a role id was requested or found |
| AdminUser.UpdateRollback | src/api/admin-user/controllers/admin-user.ts:349-355 | the rollback records the stored e-mail, user name, flags and role id, each exactly when it was stored with the right type, and nothing else |
| AdminUser.RollbackRestores | src/api/admin-user/controllers/admin-user.ts:297-356 | writing the rollback over any partly applied patch restores every field it records |
| AdminUser.AuthorSource | src/api/admin-user/controllers/admin-user.ts:71 | a nested `author` object is the source of the author fields, otherwise the value itself is |
| AdminUser.AuthorFields | src/api/admin-user/controllers/admin-user.ts:70-77 | the name is `authorName` when that is neither null nor undefined, else `name`, and the avatar id likewise prefers `authorAvatarId`; every text found is non-empty and trimmed, and an avatar id is positive |
| AdminUser.RequestedRoleId | src/api/admin-user/controllers/admin-user.ts:163 | the requested role is the parsed `roleId`, else the parsed `role`; any result is non-empty and trimmed |
| Author.TextIfTruthy | src/api/author/controllers/author.ts:47-52 | `v ? String(v) : undefined` gives a text exactly when `v` is truthy |
| Author.NormalizeAuthor | src/api/author/controllers/author.ts:39-58 | a falsy entity gives null; otherwise the role is the stored role when it is one of the four, else `author`; a falsy name or e-mail reads as empty; an avatar URL appears exactly when the stored one is a non-empty string |
| Author.ResolveAvatarId | src/api/author/controllers/author.ts:106-112 | null or `''` clears the avatar and nothing else does; a value read as a positive relation id is that file; any other chosen file was found by its URL from text; a non-string without an id leaves the avatar alone |
| Author.AvatarRequest | src/api/author/controllers/author.ts:114 | the intended reading takes `avatar` whenever the key is given, even as null, else `avatarId` |
| Author.AvatarRequestAsWritten | src/api/author/controllers/author.ts:114 | as written, `avatar ?? avatarId` takes `avatarId` whenever `avatar` is null, so an explicit `avatar: null` is lost when `avatarId` is absent |
| Author.NullAvatarIsIgnored | src/api/author/controllers/author.ts:114 | as written, `{avatar: null}` leaves the avatar as it is, while the intended reading clears it |
| Author.AvatarReadingsAgree | src/api/author/controllers/author.ts:114 | the written and intended readings agree whenever `avatar` is not null |
| Author.CreateRole | src/api/author/controllers/author.ts:115-128 | a role that is given (not undefined, null or `''`) and not one of the four is refused, and only such a role; an absent one gives `author`; a valid one is kept |
| Author.CreateAuthor | src/api/author/controllers/author.ts:84-135 | create is refused exactly for an invalid role, before anything is written; otherwise the role is a CMS role, `author` by default, name and e-mail are the trimmed texts or `''`, and the avatar is the resolved one |
| Author.TextOrNull | src/api/author/controllers/author.ts:170-173 | `parseString(v) ?? null` is null or a non-empty text |
| Author.Named | src/api/author/controllers/author.ts:169-171 | name and e-mail are written exactly when given as non-blank text, trimmed |
| Author.Blankable | src/api/author/controllers/author.ts:170-173 | the Hindi name and the bios are written exactly when given, and written as null exactly when blank |
| Author.BlankClears | src/api/author/controllers/author.ts:170-173 | a null or blank value clears a blankable field |
| Author.UpdateRole | src/api/author/controllers/author.ts:174-184 | a role written by update is always one of the four CMS roles |
| Author.UpdateRoleAgreesWithCreate | src/api/author/controllers/author.ts:115-120 | for a given role, update and create refuse the same values with the same message and write the same role |
| Author.UserValue | src/api/author/controllers/author.ts:185 | the linked user is written exactly when given, as a positive id or as null |
| Author.AvatarValue | src/api/author/controllers/author.ts:187-191 | the avatar is written only when `avatar` or `avatarId` is given; it is cleared exactly when the intended avatar value is null or `''`, set to file n when that value resolves to file n, and left alone when it resolves to nothing |
| Author.WriteTexts | src/api/author/controllers/author.ts:168-173 | the text writes fill exactly the name, e-mail, Hindi name and bios as specified, and no other field |
| Author.WriteRole | src/api/author/controllers/author.ts:174-184 | an invalid role is refused; a given role is written as specified; an absent one leaves the patch as it was |
| Author.WriteRelations | src/api/author/controllers/author.ts:185-191 | the user and avatar writes change only those two fields, as specified |
| Author.UpdateAuthorPatch | src/api/author/controllers/author.ts:137-198 | update is refused exactly for an invalid role; otherwise every field of the patch is the one specified for it |
| EducationNews.NormalizeEducationNews | src/api/education-news/controllers/education-news.ts:8-32 | a missing entity gives null; otherwise the normalized record, whose properties the lemmas below state |
| EducationNews.FillHindiTexts | src/api/education-news/controllers/education-news.ts:16-18 | the three Hindi fallbacks, one after the other |
| EducationNews.FillDates | src/api/education-news/controllers/education-news.ts:20-26 | the publication-date fallback, then `lastUpdated` |
| EducationNews.FillSeoFields | src/api/education-news/controllers/education-news.ts:28-29 | the SEO title, then the SEO description fallback |
| EducationNews.Normalized | src/api/education-news/controllers/education-news.ts:8-32 | every stored property other than the id, the Hindi texts, the dates and the SEO fields comes back unchanged |
| EducationNews.DateStepsSame | src/api/education-news/controllers/education-news.ts:20-26 | each date step changes only derived keys |
| EducationNews.HindiStep | src/api/education-news/controllers/education-news.ts:16-18 | the Hindi step writes only the three Hindi texts, each from its own English text |
| EducationNews.DateSteps | src/api/education-news/controllers/education-news.ts:20-26 | the date steps write only `publishedAt` and `lastUpdated`, each from its own source |
| EducationNews.SeoStep | src/api/education-news/controllers/education-news.ts:28-29 | the SEO step writes only the SEO title and description, from the Hindi title and excerpt |
| EducationNews.Untouched | src/api/education-news/controllers/education-news.ts:8-32 | a property no step writes is passed through |
| EducationNews.AfterHindi | src/api/education-news/controllers/education-news.ts:20-29 | the date and SEO steps keep every other property |
| EducationNews.HindiOfStored | src/api/education-news/controllers/education-news.ts:12-18 | after the Hindi step the id is a string and each Hindi text is filled from the stored record |
| EducationNews.IdAndHindiTexts | src/api/education-news/controllers/education-news.ts:12-18 | the id comes back as a string; each Hindi text is the stored one when truthy, else the English one when that is truthy |
| EducationNews.Dates | src/api/education-news/controllers/education-news.ts:20-26 | a falsy publication date becomes a string creation date; `lastUpdated` is a string update date, else kept |
| EducationNews.BeforeSeo | src/api/education-news/controllers/education-news.ts:16-26 | before the SEO step the SEO fields are the stored ones and the Hindi title and excerpt are filled |
| EducationNews.SeoFields | src/api/education-news/controllers/education-news.ts:28-29 | a falsy SEO title takes the filled Hindi title, a falsy SEO description the filled Hindi excerpt; a record with a title always gets an SEO title |
| EducationNews.IdStable | src/api/education-news/controllers/education-news.ts:12 | stringifying the id of a normalized record changes nothing |
| EducationNews.HindiStable | src/api/education-news/controllers/education-news.ts:16-18 | the Hindi step has nothing to do on a normalized record |
| EducationNews.DatesStable | src/api/education-news/controllers/education-news.ts:20-26 | the date steps have nothing to do on a normalized record |
| EducationNews.SeoStable | src/api/education-news/controllers/education-news.ts:28-29 | the SEO step has nothing to do on a normalized record |
| EducationNews.NormalizedIsStable | src/api/education-news/controllers/education-news.ts:8-32 | normalizing a normalized record changes nothing |
| SiteSetting.PickPayload | src/api/sitesetting/controllers/sitesetting.ts:21-43 | the payload has exactly the twenty listed settings as keys |
| SiteSetting.PayloadDropsOthers | src/api/sitesetting/controllers/sitesetting.ts:21-43 | the id and every unlisted stored property are dropped from the payload |
| SiteSetting.DefaultedAreListed | src/api/sitesetting/controllers/sitesetting.ts:22-32 | the site name, Hindi site name and default author role are among the listed settings |
| SiteSetting.DefaultsOnlyForNullish | src/api/sitesetting/controllers/sitesetting.ts:22-32 | the three defaults (`Rampur News`, its Hindi name, `author`) apply only when the setting is null or missing; an empty string is kept |
| SiteSetting.OtherSettingsPassThrough | src/api/sitesetting/controllers/sitesetting.ts:24-42 | every other listed setting passes through, a stored null coming back undefined |
| SiteSetting.NormalizeSiteSetting | src/api/sitesetting/controllers/sitesetting.ts:3-10 | a missing record gives null; otherwise the record with its id as a string and every other property unchanged |
| SiteSetting.SettingStore.constructor | src/api/sitesetting/controllers/sitesetting.ts:12-19 | the store holds the given records and the next id |
| SiteSetting.SettingStore.GetOrCreate | src/api/sitesetting/controllers/sitesetting.ts:12-19 | the first stored record is returned and nothing changes; only when there is none is one empty record created, with the next id, and returned |
| SiteSetting.SettingStore.Settings | src/api/sitesetting/controllers/sitesetting.ts:46-62 | `get` leaves a non-empty store as it is; on an empty store it creates the one record `{id: nextId}` and advances the id; it returns the settings payload of the first record |
| SiteSetting.SettingStore.UpdateSettings | src/api/sitesetting/controllers/sitesetting.ts:64-79 | the first (possibly new) record is updated with the request's data and no other record changes; the payload of the result is returned |
| SiteSetting.Updated | src/api/sitesetting/controllers/sitesetting.ts:65-76 | the request's properties are written over the record, the id is kept and no stored property is lost |
| SiteSetting.GetOrCreateTwice | src/api/sitesetting/controllers/sitesetting.ts:12-19 | two calls return the same record and create at most one |
| Media.MediaLimit | src/api/media/controllers/media.ts:37-38 | the limit is always positive: `Number(limit)` when finite and positive, else 50 |
| Media.LimitIsUnbounded | src/api/media/controllers/media.ts:37-38 | a missing limit gives 50 and a limit of any size is taken as it is, with no upper bound |
| Media.MediaUrl | src/api/media/controllers/media.ts:1-15 | a falsy url is returned as it is; a string url is made absolute; a truthy url that is not a string fails (`startsWith` throws) |
| Media.NormalizeMedia | src/api/media/controllers/media.ts:11-25 | a falsy file gives null; the view of a file has its id as a string, a non-empty title and `strapi` as uploader; it fails exactly when the url does |
| Media.TitleAndAltText | src/api/media/controllers/media.ts:16-17 | the title is the name, else the hash, else `file`; the alt text is the alternative text, else the caption, else the name, else empty |
| Media.MediaList | src/api/media/controllers/media.ts:36-47 | `find` returns one view per truthy entry |
| Media.Truthies | src/api/media/controllers/media.ts:46 | the kept entries are all truthy and no more than the input |
| Media.MediaListIsTruthies | src/api/media/controllers/media.ts:46 | the listed views are the truthy entries, each normalized, in stored order |
| Media.FileFromRequest | src/api/media/controllers/media.ts:27-33 | without a truthy `file` or `files` the result is null; a truthy `file` wins, else a truthy `files` is used; a non-array candidate is itself, an array gives its first element, undefined when empty |
| Media.FileWinsOverFiles | src/api/media/controllers/media.ts:29 | a truthy `file` wins over `files` |
| Media.UploadCandidate | src/api/media/controllers/media.ts:49-56 | create is refused with `Missing file` exactly when the request yields no truthy file; otherwise it uploads that file |
| Media.EmptyArrayIsMissing | src/api/media/controllers/media.ts:29-53 | an empty array of files is refused as missing |
| Bootstrap.FiniteOrZero | src/index.ts:20-23 | `toNumber` is the number a value reads as, and 0 when that is not finite |
| Bootstrap.FiniteOrZeroReadsIds | src/index.ts:20-23 | ids stored as numbers or printed numbers read back as themselves; missing ids, NaN and the infinities read as 0 |
| Bootstrap.SeedFlag | src/index.ts:28 | `STRAPI_SEED` wins whenever it is set, even to the empty string; otherwise `SEED` |
| Bootstrap.AllowSeed | src/index.ts:25-31 | seeding is allowed exactly outside production or when the seed flag reads `1`, `true` or `yes`; in production without any flag it is refused |
| Bootstrap.FlagIgnoresSpaces | src/index.ts:25-30 | white space around the environment values does not change the decision |
| Bootstrap.EmptyStrapiSeedHidesSeed | src/index.ts:28-31 | in production an empty `STRAPI_SEED` refuses seeding whatever `SEED` says |
| Bootstrap.ShouldSeedCore | src/index.ts:200-209 | core seeding runs when seeding is allowed or either collection is empty, and otherwise exactly when `STRAPI_SEED_CORE` is on |
| Bootstrap.RegistrationLock | src/index.ts:132-146 | the stored settings are rewritten exactly in production without the registration flag when they are an object with `allow_register` true; the rewrite turns it off and keeps every other setting |
| Bootstrap.LockedSettings | src/index.ts:140-142 | the locked settings are written exactly when registration is on, with `allow_register` false and everything else kept |
| Bootstrap.RegistrationLockOnce | src/index.ts:136-146 | after the lock is written, the next start writes nothing |
| Bootstrap.RolesOfType | src/index.ts:63-91 | the roles of a type are exactly the stored roles of that type |
| Bootstrap.WithIds | src/index.ts:69-73 | the roles with a non-zero id are kept, and only those |
| Bootstrap.RoleIds | src/index.ts:102-106 | the ids of the roles, one per role, in order |
| Bootstrap.PermissionIds | src/index.ts:42-50 | the permission ids of a role are exactly the positive ids linked to it |
| Bootstrap.LinkCount | src/index.ts:33-40 | the link count of a role is 0 exactly when no row links it |
| Bootstrap.Missing | src/index.ts:55 | the ids to insert are exactly the positive requested ids not yet linked; none are missing exactly when every positive requested id is linked |
| Bootstrap.LinkRows | src/index.ts:57-59 | one inserted row per missing id, linking it to the role |
| Bootstrap.LinkingTwiceInsertsOnce | src/index.ts:52-60 | after linking, linking the same ids again inserts nothing |
| Bootstrap.CanonicalIndex | src/index.ts:76-77 | the canonical role has the most permission links, and is the first such role, as the stable sort by decreasing count puts in front |
| Bootstrap.OtherIds | src/index.ts:81-85 | the ids of every candidate but the canonical one |
| Bootstrap.FindByType | src/index.ts:111 | a role of that type, the first in store order, and none exactly when no role has that type |
| Bootstrap.FindByName | src/index.ts:112 | a role of that name, and none exactly when no role has that name |
| Bootstrap.AdminUserPermissionIds | src/index.ts:94-100 | exactly the positive ids of permissions whose action starts with `api::admin-user.admin-user.` |
| Bootstrap.Candidates | src/index.ts:68-73 | the loop keeps exactly the roles with a non-zero id, in order |
| Bootstrap.EveryCandidateGainsCanonical | src/index.ts:80-85 | after the sync every candidate role, the canonical one included, has every permission the canonical role had |
| Bootstrap.RoleStore.constructor | src/index.ts:19 | the store holds the given roles, links and next id |
| Bootstrap.RoleStore.LinkPermissionsToRole | src/index.ts:52-60 | only rows are added, one per requested positive id the role lacks; afterwards the rows are the old ones plus exactly those links; roles are unchanged |
| Bootstrap.RoleStore.LinkToEach | src/index.ts:81-106 | links the ids to every non-zero target role; no row is removed and no other row is added |
| Bootstrap.RoleStore.SyncDuplicateRolesByType | src/index.ts:62-86 | with at most one candidate nothing changes; otherwise the other roles of the type gain exactly the canonical role's permissions, nothing is removed, and every candidate ends with all of them |
| Bootstrap.RoleStore.EnsureAdminUserPermissions | src/index.ts:88-107 | every admin role with a non-zero id gains exactly the admin-user permissions; nothing is removed |
| Bootstrap.RoleStore.EnsureRole | src/index.ts:109-117 | the role of that type, else the one of that name, else a new role with the next id; only in the last case does the store change, by that one role |
| Bootstrap.RoleStore.SeedRoles | src/index.ts:119-130 | without seeding nothing changes; roles and links only grow, by at most four roles, and after seeding each of the four CMS roles exists by type or by name |
| Bootstrap.EnsureRoleTwice | src/index.ts:109-123 | ensuring a role twice returns the same role and creates at most one |
| Seeding.StrictEquals | src/index.ts:345-346 | `===` between a stored and a seed value: strictly equal values are equal and the test is symmetric; `NaN`, objects and arrays are never equal; two strings are equal exactly when their texts are |
| Seeding.Same | src/index.ts:1115-1118 | values that count as equal agree once `undefined` reads as `null`; the `?? null` and JSON comparisons treat `undefined` and `null` alike, the strict one does not; the JSON comparison is reflexive, and a strictly equal pair is equal under `?? null` |
| Seeding.Patch | src/index.ts:344-351 | the patch holds the seed's value of exactly the compared fields that differ from the stored entity, and is empty exactly when none differs |
| Seeding.Merged | src/index.ts:351-354 | the updated entity has the patched fields' new values and every other field as before |
| Seeding.Created | src/index.ts:338-340 | the created entity carries the seed's data and its new id |
| Seeding.PatchSettles | src/index.ts:344-355 | after an update with its patch, the entity no longer differs from the seed when every compared seed value equals itself |
| Seeding.SeedStep | src/index.ts:335-356 | a seed whose key is not stored is created; a stored one is updated with its patch when that is non-empty, and otherwise nothing happens |
| Seeding.SeedAll | src/index.ts:335-356 | seeding only appends writes, at most one per seed, never drops a stored key, leaves every seed's key stored, and never lowers the next id |
| Seeding.SeedAllSnoc | src/index.ts:335 | seeding one more seed is one more step |
| Seeding.SeedAllPrefixStep | src/index.ts:335 | seeding a prefix one seed longer is one more step |
| Seeding.IndexBy | src/index.ts:330-333 | the index holds, under each key, a stored entity with that truthy key, and every entity with a truthy key has its key in the index |
| Seeding.BuildIndex | src/index.ts:330-333 | the loop over the stored entities builds exactly that index |
| Seeding.ApplySeed | src/index.ts:336-355 | the body of a seeding loop performs exactly one seeding step |
| Seeding.SeedCollection | src/index.ts:330-356 | a seeding loop indexes the stored entities and then seeds in order |
| Seeding.CreatedSettles | src/index.ts:338-340 | a created entity agrees with its seed |
| Seeding.StepSettles | src/index.ts:335-356 | after its step a well-formed seed's key is settled |
| Seeding.StepKeepsOthers | src/index.ts:335-356 | a step touches the index only under its own key |
| Seeding.SeedAllSettles | src/index.ts:335-356 | after a run over well-formed seeds with distinct keys every seed is settled |
| Seeding.SettledSeedsWriteNothing | src/index.ts:335-356 | settled seeds cause no write and change nothing |
| Seeding.SecondRunWritesNothing | src/index.ts:330-356 | seeding is idempotent: a second run over what the first produced writes nothing |
| Seeding.CategorySeedOf | src/index.ts:211-357 | a category seed is keyed by its slug, is well formed, and carries its two titles, description, path and order |
| Seeding.PatchHasKey | src/index.ts:344-351 | a field compared by one rule only is in the patch exactly when that rule finds a difference |
| Seeding.CategoryKeysDistinct | src/index.ts:345-349 | the five compared category fields are distinct and none is the slug |
| Seeding.CategoryTitlesPatched | src/index.ts:345-346 | each title is patched exactly when it differs from the seed's under `!==` |
| Seeding.CategoryOptionalFieldsPatched | src/index.ts:347-349 | description, path and order are patched exactly when they differ once a missing value reads as null |
| Seeding.CategorySlugNeverPatched | src/index.ts:344-351 | the slug, the key, is never patched |
| Seeding.SeedCategories | src/index.ts:326-357 | category seeding indexes the stored categories by slug and seeds in order |
| Seeding.CategorySeeds | src/index.ts:335 | one seed per category, in order |
| Seeding.CategorySeedingIsIdempotent | src/index.ts:326-357 | categories with distinct slugs are seeded once: a second run writes nothing |
| Seeding.AuthorSeedOf | src/index.ts:393-405 | an author seed is keyed by its e-mail and is well formed |
| Seeding.AuthorSeeds | src/index.ts:393 | one seed per author, in order |
| Seeding.SeedAuthors | src/index.ts:386-412 | author seeding indexes the stored authors by e-mail and seeds in order |
| Seeding.AuthorSeedingIsIdempotent | src/index.ts:386-412 | authors with distinct e-mails are seeded once |
| Seeding.FieldsRecord | src/index.ts:519 | the record holds exactly the listed fields |
| Seeding.StrictRules | src/index.ts:519-520 | every field of a page is compared with `!==` |
| Seeding.PageSeedOf | src/index.ts:511-520 | a page seed is keyed by its slug and compares all its fields strictly |
| Seeding.PageSeedWellFormed | src/index.ts:417-520 | a page whose fields are strings, booleans and numbers, without `id`, is well formed |
| Seeding.PageSeedingIsIdempotent | src/index.ts:504-526 | pages with distinct slugs and plain fields are seeded once |
| Seeding.PageSeeds | src/index.ts:511 | one seed per page, in order |
| Seeding.SeedPages | src/index.ts:504-526 | page seeding indexes the stored pages by slug and seeds in order |
| Seeding.SeedPayload | src/index.ts:1100 | the stored payload is the seed's payload with its slug and order |
| Seeding.MicrositeRules | src/index.ts:1111-1119 | the payload is compared as JSON, every other field after `?? null` |
| Seeding.MicrositeData | src/index.ts:1101-1102 | the data of an item holds exactly the index columns, slug, order and payload |
| Seeding.MicrositeSeedOf | src/index.ts:1096-1102 | an item seed is keyed by its slug and carries the item's data |
| Seeding.FirstUnslugged | src/index.ts:1097-1098 | the position of the first item without a slug |
| Seeding.MicrositeSeeds | src/index.ts:1096 | one seed per item, in order |
| Seeding.SeedMicrosite | src/index.ts:685-1126 | the start fails with `Microsite seed is missing slug` exactly when some item has no slug; the items before it are seeded and their writes stay |
| Seeding.FirstKeyless | src/index.ts:1097-1098 | the position of the first seed with an empty key |
| Seeding.SeedUntilKeyless | src/index.ts:1096-1126 | seeds are applied in order until the first with an empty key, which stops the run |
| Seeding.MicrositeSeedsPrefix | src/index.ts:1096-1098 | the microsite seeds stop exactly where the items do |
| Seeding.FirstKeylessIs | src/index.ts:1097-1098 | characterises the first empty key by the keys before it |
| Seeding.FirstPresentIsPlain | src/index.ts:1058-1075 | a `??` chain over plain values gives a plain value |
| Seeding.GetIsPlain | src/index.ts:1058-1075 | reading an object with plain values gives a plain value |
| Seeding.PickedIndexIsPlain | src/index.ts:1058-1092 | the index columns of an object with plain values are plain |
| Seeding.NamesArePlain | src/index.ts:1059-1062 | the slug, title and name columns are plain |
| Seeding.CategoriesArePlain | src/index.ts:1063-1065 | the category columns are plain |
| Seeding.PlacesArePlain | src/index.ts:1066-1068 | the status and place columns are plain |
| Seeding.DatesArePlain | src/index.ts:1073-1074 | the date columns are plain |
| Seeding.FlagsArePlain | src/index.ts:1069-1072 | the flag, image and order columns are plain |
| Seeding.IndexColumnIsPlain | src/index.ts:1058-1092 | every column of a plain index is plain |
| Seeding.MicrositeFieldSelfSame | src/index.ts:1111-1119 | each field of an item with a plain payload equals itself under its comparison |
| Seeding.MicrositeKeyIsNotId | src/index.ts:1102 | no compared item key is `id` |
| Seeding.MicrositeSeedWellFormed | src/index.ts:1096-1119 | an item whose payload holds no object, array or NaN is well formed |
| Seeding.MicrositeSeedingIsIdempotent | src/index.ts:685-1126 | items with distinct slugs and plain payloads are seeded once: a second run writes nothing |
| Seeding.ArticleSlug | src/index.ts:537-538 | an article is grouped exactly when its slug is truthy, under the slug's string |
| Seeding.Group | src/index.ts:540-542 | a group is no longer than the articles |
| Seeding.GroupHasKey | src/index.ts:540-542 | every article of a group has the group's slug |
| Seeding.KeyOrder | src/index.ts:544 | the slugs appear once each, exactly those with a non-empty group, in order of first appearance |
| Seeding.Tail | src/index.ts:546 | `[keep, ...duplicates]`: all but the first |
| Seeding.DedupeArticles | src/index.ts:534-557 | every grouped slug resolves to the first stored article with it, and the deleted articles are exactly the later ones of each slug |
| Seeding.GroupByKey | src/index.ts:536-543 | the first pass groups the articles by slug in stored order and remembers the last one of each slug |
| Seeding.GroupOne | src/index.ts:537-542 | one article of the first pass extends the grouping |
| Seeding.GroupedKeyed | src/index.ts:538-542 | an article with a slug extends the grouping |
| Seeding.KeyedKeys | src/index.ts:538-542 | the grouping keeps order, buckets and latest articles on the same slugs |
| Seeding.KeyedGroups | src/index.ts:540-542 | the buckets are the groups after one more article |
| Seeding.KeyedOrder | src/index.ts:542 | a new slug is added to the order |
| Seeding.KeyedBuckets | src/index.ts:540-542 | an article joins its slug's bucket |
| Seeding.KeyedLatest | src/index.ts:539 | an article becomes the latest of its slug |
| Seeding.GroupStep | src/index.ts:540-542 | one more article adds itself to its slug's group and its slug to the order when new |
| Seeding.Duplicates | src/index.ts:544-552 | every deleted article carries one of the grouped slugs |
| Seeding.DeleteLaterDuplicates | src/index.ts:544-557 | the second pass resolves every slug to its first article and deletes the later ones, slug by slug |
| Seeding.ResolvedAll | src/index.ts:544-557 | once every slug is handled, each resolves to its first article |
| Seeding.ResolveKey | src/index.ts:545-556 | one slug of the second pass adds its later articles to the deleted ones and resolves to its first |
| Seeding.ResolvedStep | src/index.ts:554-556 | resolving one more slug to its first article |
| Seeding.ResolveOne | src/index.ts:545-556 | with several articles the later ones are deleted and the slug resolves to the first |
| Seeding.OrderStep | src/index.ts:544 | one more slug adds its later articles to the deleted ones |
| Seeding.DropFirstsAreDuplicates | src/index.ts:544-557 | the deleted articles of the second pass are the later articles of each slug's group |
| Seeding.DeleteEach | src/index.ts:547-553 | each duplicate, in order, is deleted; a failing delete is ignored |
| Seeding.GroupAppend | src/index.ts:540-542 | grouping distributes over concatenation |
| Seeding.GroupOfRun | src/index.ts:540-542 | grouping a run of one slug keeps it whole or drops it |
| Seeding.DeletedAreLaterDuplicates | src/index.ts:544-557 | the deleted articles with a slug are exactly those after the first, in stored order |
| Seeding.DedupeKeepsFirst | src/index.ts:534-557 | for every slug only the articles after the first are deleted; an article without a truthy slug is never deleted |
| Paging.Matching | scripts/publish-existing-articles.js:23-31 | the positions a filtered, sorted `findMany` returns are never more than the table's rows |
| Paging.MatchingFacts | scripts/publish-existing-articles.js:23-31 | the matching positions are exactly the positions of rows the filter accepts, each in the table, in increasing (sort) order |
| Paging.Page | scripts/publish-existing-articles.js:23-31 | a page (`offset: start, limit`) holds at most `limit` positions, and a non-empty one has at least `start` matching rows before it |
| Paging.PageWithin | scripts/publish-existing-articles.js:23-31 | every position of a page is a row of the table, and the page is in increasing order |
| Paging.PageQuery | scripts/backfill-missing-published-at.js:15-33 | the query a script issues for a filter and page size answers every table and offset with that page |
| Paging.PageQueryIsQuery | scripts/backfill-missing-published-at.js:15-33 | a paged query lists only rows of the table, and a page found at offset `s` has `s` rows before it |
| Paging.WithField | scripts/publish-existing-articles.js:41-44 | `update({ where: { id }, data })` writes the one property over and leaves every other property; a non-object row is untouched |
| Paging.VisitRow | scripts/publish-existing-articles.js:35-47 | visiting one row writes back the row the script produces (if any) at its position only, adds one to `scanned` and adds one to `updated` exactly when the script counts the row |
| Paging.VisitAll | scripts/publish-existing-articles.js:35-47 | visiting a page keeps the table's length, adds the page's length to `scanned` and at most that to `updated` |
| Paging.VisitAllRows | scripts/publish-existing-articles.js:35-47 | visiting an increasing page changes no row outside it and leaves each row of the page as its own visit leaves it |
| Paging.VisitAllOutside | scripts/publish-existing-articles.js:35-47 | visiting a page changes no row outside the page |
| Paging.VisitAllKeeps | scripts/publish-existing-articles.js:35-47 | when no write changes whether a row matches, no page visit changes whether any row matches |
| Paging.Counted | scripts/publish-existing-articles.js:46 | the number of a page's rows a script counts is at most the page's length |
| Paging.VisitAllCounts | scripts/publish-existing-articles.js:36-46 | the `updated` counter grows by exactly the number of the page's rows the visits count |
| Paging.EachRow | scripts/publish-existing-articles.js:35-47 | the scripts' page visit is visiting each row of the page in order, and visiting two pages in turn is visiting their concatenation |
| Paging.PageVisitFacts | scripts/publish-existing-articles.js:35-47 | visiting each row keeps the length, does nothing on an empty page, changes only the page's rows and composes over concatenation |
| Paging.Run | scripts/publish-existing-articles.js:22-51 | the loop as written (query at `start`, stop on an empty page, visit, stop on a short page, else `start += batch.length`) keeps the table's length |
| Paging.RunKeeps | scripts/publish-existing-articles.js:22-51 | any property of the table and counters that every page visit keeps holds when the loop ends |
| Paging.ArticleTable.constructor | scripts/publish-existing-articles.js:23 | the table holds the given rows |
| Paging.ArticleTable.Update | scripts/publish-existing-articles.js:41-44 | `update` of the row at a position replaces that row and no other |
| Paging.VisitPage | scripts/publish-existing-articles.js:35-47 | the `for (const row of batch)` loop leaves the table and the counters exactly as visiting each row of the page in order does |
| Paging.PagedUpdate | scripts/publish-existing-articles.js:22-51 | the paged `while (true)` loop on the table ends in the state the loop's definition `Run` gives and returns its `scanned` and `updated` counters |
| Paging.KeptFilterVisitsAll | scripts/publish-existing-articles.js:22-51 | when page visits do not change which rows match, the loop as written visits every matching row from `start` exactly once, in order |
| Paging.KeptRunVisitsMatching | scripts/publish-existing-articles.js:22-51 | when writes keep the filter, the loop as written from offset 0 visits exactly the matching rows, once each, in table order |
| Paging.OffsetSkipsRow | scripts/publish-existing-articles.js:25-50 | when the writes take rows out of the filter, the loop as written on `PAGE_SIZE + 1` matching rows never visits the last one although it still matches, and scans only `PAGE_SIZE` rows |
| Paging.RunSettled | scripts/publish-existing-articles.js:22-51 | the loop as intended (advancing the offset only past the page's rows that still match) keeps the table's length |
| Paging.SettledVisitsAll | scripts/publish-existing-articles.js:22-51 | the loop as intended visits every row that matches from `start` on exactly once, in order, whatever the writes do to the filter |
| Paging.SettledRunVisitsMatching | scripts/publish-existing-articles.js:22-51 | the loop as intended from offset 0 visits exactly the rows that matched at the start, once each, in table order |
| Paging.SettledUpdate | scripts/publish-existing-articles.js:22-51 | the intended loop on the table ends in the state `RunSettled` gives and returns its two counters |
| Paging.VisitMatching | scripts/publish-existing-articles.js:35-47 | visiting the matching rows leaves each matching row as its visit leaves it and every other row as it was, adds the number of matching rows to `scanned` and the number of matching rows the script counts to `updated` |
| Paging.CountedMatching | scripts/publish-existing-articles.js:46 | counting the visits of the matching rows counts the rows that both match and are counted |
| Paging.VisitOnlyVisited | scripts/publish-existing-articles.js:35-47 | when writes take rows out of the filter, a page visit only ever leaves a row as it was or as its visit leaves a row that matched at the start |
| Paging.WrittenRunOnlyVisits | scripts/publish-existing-articles.js:22-51 | when writes take rows out of the filter, the loop as written never changes a row that did not match at the start, nor writes anything but a row's own visit |
| LegacyValidation.DoubleQuotes | scripts/legacy-article-validation.js:19 | doubling the quotes never shortens a text |
| LegacyValidation.CollapseDoubled | scripts/legacy-article-validation.js:19 | reading each `""` as `"` undoes `replace(/"/g, '""')` on every text |
| LegacyValidation.Escape | scripts/legacy-article-validation.js:16-22 | the text is changed exactly when it holds a quote, a comma or a line feed, and is then wrapped in quotes |
| LegacyValidation.EscapeRoundTrip | scripts/legacy-article-validation.js:16-22 | an escaped field reads back (outer quotes dropped, `""` read as `"`) as the original text |
| LegacyValidation.CsvEscape | scripts/legacy-article-validation.js:16-22 | the field reads back as the value's text; `null` and `undefined` give an empty field, and a string reads back as itself |
| LegacyValidation.CarriageReturnUnquoted | scripts/legacy-article-validation.js:18 | a carriage return alone does not make a field quoted, since the test is `/[",\n]/` |
| LegacyValidation.ReadQuoted | scripts/legacy-article-validation.js:16-22 | reading a quoted field always consumes part of the input |
| LegacyValidation.ReadPlain | scripts/legacy-article-validation.js:16-22 | reading an unquoted field stops at the next comma or at the end |
| LegacyValidation.ReadDoubled | scripts/legacy-article-validation.js:19-20 | a quote-doubled text followed by the closing quote and a comma or the end reads back as the text and that rest |
| LegacyValidation.ReadPlainText | scripts/legacy-article-validation.js:21 | a text without commas followed by a comma or the end reads back as an unquoted field |
| LegacyValidation.ReadEscaped | scripts/legacy-article-validation.js:16-22 | one escaped field followed by the rest of a record reads back as the text and that rest, quoted or not |
| LegacyValidation.ReadQuotedField | scripts/legacy-article-validation.js:18-20 | a field that needs quotes is written starting with a quote and reads back from just after it |
| LegacyValidation.ReadPlainField | scripts/legacy-article-validation.js:21 | a field that needs no quotes does not start with a quote and reads back as a plain field |
| LegacyValidation.EscapeAll | scripts/legacy-article-validation.js:121 | `.map(csvEscape)` gives one field per value |
| LegacyValidation.RecordRoundTrip | scripts/legacy-article-validation.js:109-122 | `.map(csvEscape).join(',')` of any list of texts parses back as exactly those texts, whatever commas, quotes or line feeds they hold |
| LegacyValidation.Raised | scripts/legacy-article-validation.js:24-27 | the names kept by `filter(([, value]) => value)` are never more than the flags |
| LegacyValidation.Spaced | scripts/legacy-article-validation.js:28 | giving each name a leading space keeps their number |
| LegacyValidation.IssueNamesRoundTrip | scripts/legacy-article-validation.js:28 | flag names joined with `"; "` split back into the same names in order |
| LegacyValidation.RaisedNames | scripts/legacy-article-validation.js:24-27 | every raised name is one of the flags' names |
| LegacyValidation.NoneRaised | scripts/legacy-article-validation.js:24-27 | no name is kept exactly when every flag is false |
| LegacyValidation.BuildIssues | scripts/legacy-article-validation.js:24-28 | when the flag names hold no `;`, the `issues` field reads back as the raised flag names in declaration order, and is empty exactly when no flag is raised |
| LegacyValidation.FlagNamesAreIssueNames | scripts/legacy-article-validation.js:62-70 | the seven flag names are non-empty and free of `;`, so they can be read back from the field |
| LegacyValidation.ImageWidth | scripts/legacy-article-validation.js:53 | `featuredImageWidth` is always a number (the stored width when it is one, 0 otherwise) |
| LegacyValidation.WidthOf | scripts/legacy-article-validation.js:53 | the width is strictly between 0 and 1200 exactly when the stored width is such a number |
| LegacyValidation.Facts | scripts/legacy-article-validation.js:48-83 | the facts of an article are gathered with an empty `issues` field |
| LegacyValidation.Checks | scripts/legacy-article-validation.js:62-70 | there is one check per flag name |
| LegacyValidation.ArticleChecks | scripts/legacy-article-validation.js:47-70 | an article gets one result per flag name |
| LegacyValidation.Flags | scripts/legacy-article-validation.js:62-70 | pairing the checks with the names keeps their number |
| LegacyValidation.RowOf | scripts/legacy-article-validation.js:47-82 | a report row holds the article's facts, and its `issues` field names exactly the checks the article fails, in declaration order, and is empty exactly when it passes every check |
| LegacyValidation.IssuesOfChecks | scripts/legacy-article-validation.js:62-82 | for any check results the `issues` field reads back as the failed names and is empty exactly when all pass |
| LegacyValidation.WidthFlag | scripts/legacy-article-validation.js:53-64 | `image_width_below_1200` is raised exactly when the stored width is a number strictly between 0 and 1200 |
| LegacyValidation.WidthCheck | scripts/legacy-article-validation.js:64 | on a row's facts, the width check fires exactly for a width strictly between 0 and 1200 |
| LegacyValidation.TitleFlag | scripts/legacy-article-validation.js:48-69 | `title_below_20_chars` is raised exactly for a trimmed title of 1 to 19 characters |
| LegacyValidation.MissingAuthor | scripts/legacy-article-validation.js:54-66 | without an author, `missing_author` is raised and `empty_author_bio` is not |
| LegacyValidation.MissingAuthorColumns | scripts/legacy-article-validation.js:54-58 | without an author, the name column is empty and the biography length is 0 |
| LegacyValidation.NoAuthor | scripts/legacy-article-validation.js:54-57 | the absent author (`null`) has no name and no biography |
| LegacyValidation.AuthorChecks | scripts/legacy-article-validation.js:65-66 | `missing_author` fires exactly for an empty name, `empty_author_bio` exactly for an author with an empty stripped biography |
| LegacyValidation.StripNothing | scripts/legacy-article-validation.js:8-14 | stripping the empty text leaves it empty |
| LegacyValidation.MetaFallsBack | scripts/legacy-article-validation.js:59-60 | an empty `meta_description` falls back to `seoDescription`, whose trimmed length is reported |
| LegacyValidation.BlankMetaHidesSeo | scripts/legacy-article-validation.js:59-68 | a `meta_description` of only blanks is taken over `seoDescription`, so its length is 0 and `meta_description_missing` is raised even when `seoDescription` has text |
| LegacyValidation.RowsAt | scripts/legacy-article-validation.js:47-84 | one row is made per position of a page |
| LegacyValidation.RowsAtAppend | scripts/legacy-article-validation.js:36-88 | the rows of two pages are the rows of each, in order |
| LegacyValidation.LiveRows | scripts/legacy-article-validation.js:36-88 | the report has one row per live (published) article |
| LegacyValidation.RowOfLiveArticle | scripts/legacy-article-validation.js:36-88 | every report row is the row of some live article |
| LegacyValidation.Report | scripts/legacy-article-validation.js:34-88 | the report has one row per live article, and each row is the row of a live article |
| LegacyValidation.LiveArticleHasRow | scripts/legacy-article-validation.js:36-88 | every live article has its row in the report |
| LegacyValidation.BatchRows | scripts/legacy-article-validation.js:47-84 | the inner `for` loop pushes the rows of the page's articles in page order |
| LegacyValidation.CollectRows | scripts/legacy-article-validation.js:34-88 | the paged `while` loop collects exactly one row per live article, in table order |
| LegacyValidation.PageStep | scripts/legacy-article-validation.js:36-88 | a page read at `start` extends the live positions covered so far, and a short page covers all of them |
| LegacyValidation.LastPage | scripts/legacy-article-validation.js:36-88 | the loop stops only once the pages have covered every live position |
| LegacyValidation.Cells | scripts/legacy-article-validation.js:110-121 | a row has one cell per header column |
| LegacyValidation.CellTexts | scripts/legacy-article-validation.js:110-121 | a row's line holds one text per header column |
| LegacyValidation.Line | scripts/legacy-article-validation.js:108-122 | each row's line parses back as its ten column texts exactly, whatever commas, quotes or line feeds they contain |
| LegacyValidation.HeaderNames | scripts/legacy-article-validation.js:94-105 | the ten column names are ASCII letters only |
| LegacyValidation.HeaderLine | scripts/legacy-article-validation.js:94-107 | the unescaped header line parses back as the column names and holds no line feed |
| LegacyValidation.JoinFree | scripts/legacy-article-validation.js:107-125 | joining pieces that lack a character with a separator that lacks it gives text that lacks it |
| LegacyValidation.Lines | scripts/legacy-article-validation.js:108-123 | one line per row |
| LegacyValidation.LinesSnoc | scripts/legacy-article-validation.js:108-123 | one more row adds its line at the end |
| LegacyValidation.CsvLines | scripts/legacy-article-validation.js:107-123 | the `lines` array is the header line followed by each row's line in order |
| LegacyValidation.WriteReport | scripts/legacy-article-validation.js:30-125 | the script writes the header and one escaped line per live article, joined with line feeds |
| LegacyValidation.FileStartsWithHeader | scripts/legacy-article-validation.js:107-125 | the file's first line is the header line |
| LegacyValidation.FirstLine | scripts/legacy-article-validation.js:125 | splitting joined lines at line feeds gives the first line back when it holds no line feed |
| DiscoverBackfill.Width | scripts/backfill-discover-eligibility.js:24 | the width used is always a number: the stored `featured_image.width` when it is one, 0 otherwise |
| DiscoverBackfill.Eligible | scripts/backfill-discover-eligibility.js:24-25 | an article is eligible exactly when its stored width is a number of at least 1200 (or positive infinity); a missing, non-numeric or `NaN` width never is |
| DiscoverBackfill.Reconcile | scripts/backfill-discover-eligibility.js:24-29 | an article is written and counted exactly when its stored flag is not the boolean its width gives, and the write sets only `discoverEligible`, to that boolean |
| DiscoverBackfill.ReconcileKeepsLive | scripts/backfill-discover-eligibility.js:16-29 | writing `discoverEligible` never changes whether an article is live, so the offset paging misses no row |
| DiscoverBackfill.FieldAlreadySet | scripts/backfill-discover-eligibility.js:26 | writing a property the value it already has leaves the article as it is |
| DiscoverBackfill.Backfill | scripts/backfill-discover-eligibility.js:10-37 | the script's loop on the table ends with the rows and `updated` count the paged loop over live articles gives |
| DiscoverBackfill.BackfillSetsFlags | scripts/backfill-discover-eligibility.js:12-37 | afterwards every live article carries `discoverEligible` equal to `width >= 1200`, and every unpublished article is as it was |
| DiscoverBackfill.BackfillCounts | scripts/backfill-discover-eligibility.js:26-31 | `updated` counts exactly the live articles whose stored flag differed from the computed one, and every live article is visited |
| DiscoverBackfill.CountedWhenStale | scripts/backfill-discover-eligibility.js:26-31 | a live article is counted exactly when its stored flag is not the boolean its width gives |
| DiscoverBackfill.BackfillSettles | scripts/backfill-discover-eligibility.js:12-37 | after one run every live article's stored flag is the one its width gives |
| DiscoverBackfill.BackfillIdempotent | scripts/backfill-discover-eligibility.js:12-37 | a second run changes no row and counts nothing |
| PublishExisting.IsTruthy | scripts/publish-existing-articles.js:6-10 | `true` is on; unset, `null` and `false` are off; a string reading `1` after trimming is on |
| PublishExisting.EnvValue | scripts/publish-existing-articles.js:16 | an unset environment variable reads as `undefined`, a set one as its text |
| PublishExisting.DryRunIsFlag | scripts/publish-existing-articles.js:6-16 | `isTruthy(process.env.DRY_RUN)` agrees with the start-up code's flag reading (`1`, `true` or `yes` after trimming, any case), and an unset `DRY_RUN` is off |
| PublishExisting.NewPublishedAt | scripts/publish-existing-articles.js:37 | the date written is `createdAt` when truthy, else `updatedAt` when truthy, else the clock's reading, and is never null or missing |
| PublishExisting.PublishRow | scripts/publish-existing-articles.js:35-47 | a row is counted exactly when it has an id, written exactly when it has an id and this is not a dry run, and the write sets only `publishedAt` (`Publish` hands this visit to the paging loop) |
| PublishExisting.PublishAsWritten | scripts/publish-existing-articles.js:12-51 | the script as written, on the table, ends in the state and with the `scanned`/`updated` counters the loop as written gives, dry-run flag read from `DRY_RUN` |
| PublishExisting.PublishExisting | scripts/publish-existing-articles.js:12-51 | the script with the offset corrected, on the table, ends in the state and counters the intended loop gives |
| PublishExisting.PublishSettles | scripts/publish-existing-articles.js:25-44 | every write gives its row a `publishedAt`, taking it out of the query's filter |
| PublishExisting.CountedArePublishable | scripts/publish-existing-articles.js:36-46 | in both modes the counted rows are exactly the unpublished rows with an id |
| PublishExisting.DryRunChangesNothing | scripts/publish-existing-articles.js:40-46 | a dry run writes nothing, scans every unpublished article and counts those with an id |
| PublishExisting.WrittenOnlyPublishes | scripts/publish-existing-articles.js:22-51 | the loop as written only ever gives `publishedAt` to an unpublished article with an id, and leaves every other row as it was |
| PublishExisting.OffsetLeavesDraft | scripts/publish-existing-articles.js:25-50 | on 501 publishable drafts the loop as written leaves the last one unpublished and scans only 500 rows, because the offset skips rows the first page already published |
| PublishExisting.PublishesEveryDraft | scripts/publish-existing-articles.js:22-51 | the loop as intended publishes every unpublished article with an id and leaves every other row as it was |
| PublishExisting.PublishCountsAsDryRun | scripts/publish-existing-articles.js:19-46 | the loop as intended scans every unpublished article and counts exactly what a dry run counts |
| PublishedAtBackfill.Candidate | scripts/backfill-missing-published-at.js:20-31 | only a stored article that is not live can match; any scheduled date excludes it; an undated article with any hero priority, even 0, matches |
| PublishedAtBackfill.StampRow | scripts/backfill-missing-published-at.js:38-45 | a row is counted and written exactly when it has an id, and the write sets only `publishedAt` to the run's clock reading (`Stamp` hands this visit to the paging loop) |
| PublishedAtBackfill.BackfillAsWritten | scripts/backfill-missing-published-at.js:6-49 | the script as written, on the table, ends with the rows and `updated` count the loop as written gives |
| PublishedAtBackfill.Backfill | scripts/backfill-missing-published-at.js:6-49 | the script with the offset corrected, on the table, ends with the rows and count the intended loop gives |
| PublishedAtBackfill.StampSettles | scripts/backfill-missing-published-at.js:20-43 | every write takes its row out of the query's filter and makes it live |
| PublishedAtBackfill.WrittenOnlyStamps | scripts/backfill-missing-published-at.js:14-49 | the loop as written only ever stamps a candidate (no `publishedAt`, no `scheduledAt`, views or a flag or a hero priority) with an id, and leaves every other row as it was |
| PublishedAtBackfill.OffsetLeavesCandidate | scripts/backfill-missing-published-at.js:21-48 | on 501 stampable candidates the loop as written leaves the last one without `publishedAt` and visits only 500 rows |
| PublishedAtBackfill.StampsEveryCandidate | scripts/backfill-missing-published-at.js:14-49 | the loop as intended stamps every candidate with an id, which then is live, and leaves every other row as it was |
| PublishedAtBackfill.StampCounts | scripts/backfill-missing-published-at.js:39-44 | the loop as intended counts exactly the candidates with an id |

## Left out

External parts, replaced by parameters or abstract stores:
- The ORM and plugins are abstract. That covers entityService, `strapi.db`, the users-permissions and upload services, JWT `verify` and `strapi.requestContext`. Store reads are given as their results: id lists, slug-to-owner maps, rows, and a width oracle for upload files.
- The clock is a parameter. `new Date()`, `Date.now()` and `toISOString()` become `now`, `today`, stamps and `nowIso`.
- ISO dates are opaque strings compared lexicographically. Parsing a date into one is a parameter of the model.
- `randomUUID` is not modelled.
- Of URL resolution (`toAbsoluteUrl`, `resolveUploadFileIdByUrl`), only the guard is modelled: an empty or `http(s)://` input is returned unchanged. The WHATWG `URL` resolution is a foreign library.
- The revalidation `fetch` calls of the lifecycle hooks (lifecycles.js:241-267) are network I/O and are not modelled.
- `src/middlewares/redis-cache.ts`, `request-context.ts` and `slow-request.ts` only cache, log or set headers, and are not modelled.
- `scripts/check-api.js` and `scripts/check-db.js` only run diagnostics, and are not modelled.
- Logging (`console.log`, `strapi.log`) and the scripts' `strapi.destroy()` are left out.
- Writing the CSV file: `WriteReport` returns the file's text; the directory and the `Date.now()` file name are left out.
- `Promise.all` runs queries in parallel only to save time. The model runs them one after the other.
- The JSON-LD builders (`buildNewsArticleSchema`, `buildEditorialSchema`) build fixed object literals and are not modelled.
- The category, tag, page, mediaitem and result controllers, routes, config and generated types have no behaviour of their own, and are not modelled.
- `src/admin/app.tsx` is browser code (`localStorage`, `location`) and is not modelled.

Operations whose work is store traffic or an output projection:
- `resolveTagIds` (article controller) and `resolveArticleIds` (editorial controller) are not modelled: they look ids up in the store.
- `normalizeArticle` and `normalizeEditorial` are output projections. Only their status, `editorialType` whitelist and related-article rules are modelled.
- `buildStrapiArticleData` and `buildEditorialData` are modelled only for the publication-date/status mapping and the `editorialType` rule. Their other fields are copied field by field from the request.
- microsite-item `find` (microsite-item.ts:104-165) builds filters and a query for the ORM, and is not modelled.
- microsite-item `recentResults`, `findOne`, `findBySlug` and `delete` are ORM reads or deletes, and are not modelled.
- exam `upcoming`/`find`/`findOne`, education-news `find`/`findBySlug`, author `find`/`findOne`/`delete` and media `delete` are ORM reads or deletes, and are not modelled.
- admin-user `normalizeRole`/`normalizeUser` (admin-user.ts:20-42), `findOne` and `roles` are output projections of stored users, and are not modelled.
- The author-profile sync inside admin-user `update` (`authorPatch`, admin-user.ts:305-345) is not modelled. The user patch and its rollback are.
- The bootstrap admin account (index.ts:148-191) is not modelled: it calls the users-permissions service with an environment password.
- Tag seeding and demo-article seeding (index.ts:563-683) are ORM create loops over fixed lists, and are not modelled.
- The `authorByName` map of the author seeding (index.ts:387-411) is not modelled. Only the `authorByEmail` diff loop is.
- Microsite seeding reads the item's `slug` only. The `seed.payload?.slug` fallback (index.ts:1097) is not modelled.
- The script/style-block removal inside HTML stripping is modelled with ASCII case-insensitive block names. Regular-expression backtracking is not modelled.

Weaker than the source, by member:
- Seo.Truncate: lengths are counted in code points, while JavaScript's `.length` and `slice` count UTF-16 units. A title of astral characters (emoji) is measured at half its JavaScript length, and the source may cut a surrogate pair that the model keeps. Every literal of the CMS lies in the Basic Multilingual Plane, where the two counts agree.
- Seo.ArticleSeoTitle, Seo.EditorialSeoTitle and Seo.SeoDescription: their 60/160 bounds are in code points, for the reason given for `Seo.Truncate`.
- Lifecycle.DerivedShortHeadline and Lifecycle.DerivedDescription: their 110/160 bounds are in code points, for the same reason.
- LegacyValidation.TitleFlag: the 20-character threshold and the reported lengths are in code points, for the same reason.
- Text.Lower: case mapping is ASCII only. JavaScript's `toLowerCase` also maps non-ASCII letters, so `"İstanbul"` slugifies differently and `"Éco"`/`"éco"` count as two keywords in the model.
- Keywords.Deduped: "no two equal ignoring case" holds for ASCII case, for the reason given for `Text.Lower`.
- Roles.RoleLabel: a role label is lower-cased in ASCII only, for the same reason.
- Js.StringToNumber: only integer values are modelled. Decimal, exponent and `0x`/`0o`/`0b` literals whose value is an integer read as that integer. A fraction such as `"2.5"` reads as `NaN` in the model, where JavaScript gives 2.5.
- Js.ToNumber: numbers are unbounded integers, so there is no 2^53 precision limit and no overflow to `Infinity`. In JavaScript `Number("1e400")` is `Infinity` and a 17-digit id loses its last digits; in the model both are exact integers.
- Js.StringToNumber: the same width gap as `Js.ToNumber`: a literal beyond the double range reads as an exact integer, never as `Infinity`, and a long literal is never rounded.
- Js.ParseNumber, Js.ParseLimit, Media.MediaLimit, Policies.SafePage, Policies.SafePageSize, AdminUser.ListPage, AdminUser.ParseMediaId and Js.ParseRelationId: a fractional input falls back to the default in the model, for the reason given for `Js.StringToNumber`.
- Seeding.MicrositeSeedingIsIdempotent: it holds only when both runs get identical seeds. The demo payloads carry `d(n)` dates built from `Date.now()` (index.ts:690 on), so each start builds different seeds, and the source rewrites every dated item on every start.
- Seeding.Same: `JSON.stringify(a) !== JSON.stringify(b)` is modelled as structural equality. Three things are lost: key order (the source tells `{a, b}` from `{b, a}`), `NaN` and the infinities serialising to `null`, and keys holding `undefined` being dropped.
- Microsite.NormalizeItem: an array payload is treated as a non-object. The `{...payload}` spread of an array, which copies its indices as keys, is not modelled. The same holds for a `pagination` array in `Policies.ApplyPublicDefaults`.
- PublishExisting.NewPublishedAt: the script evaluates `new Date()` once per row. The model uses one `now` for the whole run.
- AdminUser.CreateUser: models the intended reading of the requested role type (`AdminUser.AuthorRole`), not the one at admin-user.ts:210; see Findings.
- Author.CreateAuthor, Author.AvatarValue and Author.UpdateAuthorPatch: they model the intended reading of the avatar key (`Author.AvatarRequest`), not `input?.avatar ?? input?.avatarId` at author.ts:114 and 188; see Findings.

## Findings

| source | as written | input that shows it | evidently intended | confidence | as-written member | corrected member |
|---|---|---|---|---|---|---|
| scripts/publish-existing-articles.js:23-50 | pages over `publishedAt: null` by `offset`, while the loop itself publishes each page's rows, so each later offset skips as many unpublished rows as were just published | 501 unpublished articles with ids: the first page publishes 500, the second query at offset 500 finds the one left at offset 0 and returns nothing; the last article stays unpublished and `scanned` is 500 | every unpublished article with an id is published, and a live run counts what a dry run counts | not executed | PublishExisting.PublishAsWritten / PublishExisting.OffsetLeavesDraft | PublishExisting.PublishExisting / PublishExisting.PublishesEveryDraft |
| scripts/backfill-missing-published-at.js:20-48 | pages over rows without `publishedAt` by `start`, while the loop stamps each page's rows, taking them out of the filter | 501 candidate articles with ids: 500 are stamped, the query at start 500 returns nothing, and the last candidate keeps no `publishedAt` | every candidate with an id gets the run's timestamp | not executed | PublishedAtBackfill.BackfillAsWritten / PublishedAtBackfill.OffsetLeavesCandidate | PublishedAtBackfill.Backfill / PublishedAtBackfill.StampsEveryCandidate |
| src/api/admin-user/controllers/admin-user.ts:210 | `normalizeRoleType(roleType)` is given the requested role type as a string, but it reads `type`/`name` of a role object, so it never yields a type | a role with neither type nor name, and `roleType: "editor"`: the author profile gets role `author` | the author profile takes the requested CMS type when the account's role gives none | not executed | AdminUser.AuthorRoleAsWritten / AdminUser.RequestedTypeIsIgnored | AdminUser.AuthorRole / AdminUser.RequestedTypeIsUsed |
| src/api/author/controllers/author.ts:114 | `input?.avatar ?? input?.avatarId` passes over an explicit `avatar: null` | update with `{ avatar: null }`: the avatar is left as it is instead of being cleared | an explicit `null` avatar clears it, as the resolver's own null case promises | not executed | Author.AvatarRequestAsWritten / Author.NullAvatarIsIgnored | Author.AvatarRequest / Author.AvatarReadingsAgree |
