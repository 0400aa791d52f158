# eBay reply classification and Shopify metafield flattening

This project models the two pieces of logic in the Shopify/eBay synchronisation
tool's Python helpers that have behaviour of their own:

- **`get_ebay_product`** (app/glitchlab_shopify.py) builds the Sell Inventory API
  request for one SKU (a fixed `inventory_item/` URL prefix followed by the SKU,
  and an `Authorization: Bearer <token>` header), then inspects the decoded reply.
  If the reply has an `errors` key, it walks the list in order and stops at the
  first entry whose `errorId` is in a fixed table: 25702 raises
  `ItemNotFoundError`, 1001, 1002 and 1100 raise `AuthenticationError`, each
  carrying the entry's `message`. Entries with other codes are passed over, and
  when no entry is recognised the whole reply, `errors` list included, is
  returned.
- **`get_metafields`** (app/glitchlab_shopify.py and, textually identical,
  glitchlab_shopify.py) turns a product's metafield records into a dictionary
  from key to value, converting the value with Python's `int()` when the
  record's `value_type` is `'integer'`. Later records overwrite earlier ones with
  the same key; a value that `int()` rejects raises `ValueError` and ends the call.

Modules:

- `Results` (results.dfy): `Option` and `Result`.
- `Documents` (documents.dfy): the decoded JSON reply as a tree (`Json`) and
  Python's substring test.
- `PyInt` (pyint.dfy): `int(s)` on a string as a partial parser, with the decimal
  printer it inverts.
- `EbayInventory` (ebay_inventory.dfy): the request, the outcome type (`Ok`,
  `ItemNotFoundError`, `AuthenticationError`, or a Python `KeyError`/`TypeError`
  raised on a reply of an unexpected shape), the classification as a function
  (`Classify`) and as the source's loop (`ClassifyReply`), and lemmas about it.
- `Metafields` (metafields.dfy): the records, the conversion, the dictionary as a
  function (`Flatten`) and as the source's loop (`GetMetafields`), and lemmas.

The decoded reply follows Python's meaning of each step: `'errors' in j` is a key
test on a mapping, a membership test on a list and a substring test on a string,
and a `TypeError` on other values; iterating an `errors` value that is a mapping
or a string yields keys or characters, which cannot be indexed by `'errorId'`;
an entry that is not a mapping raises `TypeError`, one without `errorId` or (for a
recognised code) without `message` raises `KeyError`. The HTTP status of the
response plays no part: only the decoded body is inspected.

## Model

| member | source | states |
|---|---|---|
| `EbayInventory.InventoryItemUrl` | app/glitchlab_shopify.py:55 | the request URL starts with the fixed `https://api.ebay.com/sell/inventory/v1/inventory_item/` prefix and the rest is the SKU verbatim |
| `EbayInventory.SkuOfUrl` | app/glitchlab_shopify.py:55 | a URL names a SKU exactly when it has the inventory-item prefix, and then building the URL of that SKU gives the URL back |
| `EbayInventory.AuthHeaders` | app/glitchlab_shopify.py:56 | the headers hold only `Authorization`, whose value is `Bearer ` followed by the token verbatim |
| `EbayInventory.TokenOfHeaders` | app/glitchlab_shopify.py:56 | headers carry a token exactly when `Authorization` starts with `Bearer `, and single-entry headers are rebuilt from that token |
| `EbayInventory.EbayRequestInverts` | app/glitchlab_shopify.py:55-56 | the SKU and the token are recovered unchanged from the request built from them |
| `Documents.HasSubstring` | app/glitchlab_shopify.py:65 | Python's `'errors' in s` on a string reply holds exactly when `errors` occurs at some position of `s` |
| `EbayInventory.Classify` | app/glitchlab_shopify.py:65-74 | the outcome of a decoded reply: returned unchanged when it has no `errors` key, otherwise the first entry with a known code raises its error; success only ever hands back the reply itself, and the two known errors only come from an `errors` list |
| `EbayInventory.ClassifyReply` | app/glitchlab_shopify.py:65-74 | the loop with early exit computes the classification of the reply; a mapping reply without an `errors` key is returned unchanged |
| `EbayInventory.ScanSkipsUnrecognised` | app/glitchlab_shopify.py:66-74 | when every entry is a mapping whose `errorId` is outside the table, the loop ends and the reply itself is returned |
| `EbayInventory.ScanStopsAtFirstRecognised` | app/glitchlab_shopify.py:66-72 | the first entry that is not passed over decides the outcome, whatever follows it |
| `EbayInventory.ScanOutcomeCases` | app/glitchlab_shopify.py:66-74 | the reply is returned exactly when every entry is passed over; otherwise the outcome is that of the first entry not passed over |
| `EbayInventory.ClassifyNotFound` | app/glitchlab_shopify.py:67-68 | a first recognised entry with `errorId` 25702 and a message raises ItemNotFoundError carrying exactly that message |
| `EbayInventory.ClassifyAuthentication` | app/glitchlab_shopify.py:69-72 | a first recognised entry with `errorId` 1001, 1002 or 1100 and a message raises AuthenticationError carrying exactly that message |
| `EbayInventory.ClassifyUnrecognisedIsOk` | app/glitchlab_shopify.py:74 | a reply whose `errors` entries all carry unknown codes is returned whole, `errors` list included |
| `EbayInventory.ClassifyIgnoresLaterEntries` | app/glitchlab_shopify.py:66-72 | entries after the first recognised one never change the outcome |
| `EbayInventory.ClassifyErrorSource` | app/glitchlab_shopify.py:65-72 | an ItemNotFoundError or AuthenticationError comes only from an `errors` list, from its first recognised entry, whose code matches the error kind and whose message it carries |
| `PyInt.IntOfDecimal` | app/glitchlab_shopify.py:103 | `int()` reads back every integer's decimal spelling as that integer |
| `PyInt.IntOf` | glitchlab_shopify.py:64 | `int()` on a string: whitespace around the number is skipped, then an optional sign and digits with single underscores between them give the value, anything else raises ValueError; an accepted string contains a digit and only digits, whitespace, signs and underscores |
| `PyInt.IntOfIgnoresPadding` | glitchlab_shopify.py:64 | `int()` gives the same result when any whitespace character it skips is added before or after the string |
| `Metafields.Flatten` | app/glitchlab_shopify.py:96-108 | the dictionary built by storing each record's converted value under its key in order, or the first ValueError; every stored value is the converted value of some record with that key |
| `Metafields.GetMetafields` | app/glitchlab_shopify.py:96-108 | the loop that fills the dictionary returns exactly the dictionary (or first error) defined by folding the records in order; no records give an empty dictionary |
| `Metafields.FlattenErrorPersists` | app/glitchlab_shopify.py:99-103 | once a record raises ValueError, the call ends with that error whatever records follow |
| `Metafields.FlattenKeys` | glitchlab_shopify.py:59-69 | the keys of the resulting dictionary are exactly the keys of the input records |
| `Metafields.FlattenLastWins` | glitchlab_shopify.py:60-68 | for each key, the stored value is the converted value of the last record with that key |
| `Metafields.IntegerRecordStoredParsed` | glitchlab_shopify.py:63-64 | a last-with-its-key record typed `integer` is stored as the integer its string parses to (an integer value is kept) |
| `Metafields.OtherRecordStoredUnchanged` | glitchlab_shopify.py:65-66 | a last-with-its-key record of any other type is stored with its value unchanged |
| `Metafields.FlattenFails` | app/glitchlab_shopify.py:102-103 | the call raises ValueError exactly when some `integer` record holds a string `int()` rejects, and the error names the first such string |

## Left out

- The HTTP GET and the JSON decoding of the response: the decoded reply is an input. When decoding fails the source logs and then fails with a NameError on the unbound reply; that path is not modelled.
- Fetching `product.metafields()` from Shopify: the records are an input sequence.
- Fractional JSON numbers: `Json` numbers are integers only, so an `errorId` of `25702.0`, which Python compares equal to 25702, is not represented.
- `PyInt.IntOf` accepts ASCII digits only and skips only the whitespace below code point 256 (tab, line feed, vertical tab, form feed, carriage return, space, 0x85, 0xA0); Python's `int()` also accepts other Unicode decimal digits and skips Unicode whitespace above 0xFF.
- `PyInt.IntOf` has no length limit: Python 3.11 and later (and security releases of earlier versions) raise ValueError for a decimal string of more than 4300 digits, which the model accepts.
- Metafield values other than integers and strings (None, floats, booleans) are not represented.
- Insertion order of the resulting Python dictionary: the model's result is a `map`, which has no order.
- `set_metafields` (both files): Shopify library calls and network saves.
- `render_product_template`: file reading and template rendering.
- `shopify_authenticate`: environment variables and global library configuration.
- `set_shopify_attributes`, `set_ebay_attributes`: they only raise NotImplementedError.
- Logger configuration and log messages in every file.
- app/synctool.py (web routes and configuration) and static/js/slirp-shopify.js (browser UI) are not part of this model.
