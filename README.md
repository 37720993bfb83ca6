# Playlist fetcher model

A Dafny model of `getplaylist/getplaylist.go`. The package takes a shareable
Spotify playlist link and a bearer token. It works in four steps:

1. It reads the token and fails when it is empty.
2. It cuts the playlist id out of the link.
3. It sends one authenticated GET and decodes the JSON answer.
4. It maps the decoded items to `Track{Number, Title, Artist}` records.
   There is one record per item, and the slots of items without a
   first-artist name stay zero.

The package also holds an unused helper, `getStringInBetween`.

Files:

- `gostrings.dfy`, module `GoStrings`: models of the parts of Go's `strings`
  package the code uses. `Index` is specified as the leftmost occurrence and
  `Split` by its round trip through `Join`. A `char` stands for one byte of a
  Go string.
- `getplaylist.dfy`, module `GetPlaylist`: the record types reduced to the
  fields the code reads, and the following members:
  - `StringInBetween` models `getStringInBetween`.
  - `AccessToken` models `getAccessToken`.
  - `ExtractId` models the id extraction.
  - `TakeUntil` is an independent reference for "text up to the first `/` or
    `?`". The lemma `ExtractIdAfterMarker` proves that the split-based code
    matches it.
  - `MapItems` is a method over a zero-filled `array<Track>` that models the
    decode-and-map tail of `GetTracks`.
  - `GetTracks` is a method for the whole operation, including the order in
    which errors take precedence.

The HTTP exchange and the JSON decoder are a parameter of `GetTracks`. That
parameter, `respond`, is a function from the request URL and the
Authorization header to an `Exchange`. An `Exchange` is one of three outcomes:

- the request was rejected;
- the transport failed;
- a decoded `SpotifyData` arrived, with a flag that says whether decoding
  reported an error.

The environment variable `SPOTIFY_TOKEN` becomes the `token` parameter.

Two behaviours of the code are easy to miss, and the model keeps both:

- A decode error does not stop the function. When items were decoded, the
  tracks and the playlist name are returned together with the decode error.
  When no items were decoded, the decode error is replaced by "could not find
  any tracks", and the name is left empty.
- A token that is set but empty counts as missing, because the code only
  compares the variable's value with `""`.

## Model

| member | source | states |
|---|---|---|
| `GoStrings.Index` | getplaylist/getplaylist.go:24 | `strings.Index`: -1 exactly when the pattern does not occur; otherwise a position where it occurs with no occurrence before it |
| `GoStrings.IndexOfFirst` | getplaylist/getplaylist.go:29 | the leftmost occurrence is the only answer `Index` can give |
| `GoStrings.Split` | getplaylist/getplaylist.go:134-140 | `strings.Split` with a non-empty separator: at least one part; exactly one part iff the separator does not occur; no part contains the separator; the first part ends before the first occurrence; `Join` of the parts with the separator gives back the input |
| `GetPlaylist.StringInBetween` | getplaylist/getplaylist.go:22-34 | empty when `start` does not occur; a non-empty result appears in `str` as `start + result + end` and contains no `end` |
| `GetPlaylist.BetweenOccurrences` | getplaylist/getplaylist.go:28-31 | the text between an occurrence of `start` and the first later `end` sits between them in `str` and contains no `end` |
| `GetPlaylist.StringInBetweenFound` | getplaylist/getplaylist.go:24-31 | with `start` first at `p` and `end` first at offset `e > 0` after it, the result is exactly `str[p+|start| .. p+|start|+e]` |
| `GetPlaylist.StringInBetweenEmpty` | getplaylist/getplaylist.go:29-33 | with `start` present, the result is empty when `end` does not follow it or follows it at once (always so for an empty `end`) |
| `GetPlaylist.AccessToken` | getplaylist/getplaylist.go:189-198 | an error (MissingToken) iff the token is empty; otherwise the token itself |
| `GetPlaylist.TakeUntil` | getplaylist/getplaylist.go:139-140 | the reference "text up to the first stop character": a prefix of the input with no stop character, ending at the end or at a stop character |
| `GetPlaylist.TakeUntilUnique` | getplaylist/getplaylist.go:139-140 | the three conditions of `TakeUntil` single out its result |
| `GetPlaylist.TakeUntilPrefix` | getplaylist/getplaylist.go:139 | if the longer string continues with a stop character right after a prefix, cutting the prefix or the longer string at the first stop character gives the same text. This applies to the second split part: it ends where the next `/playlist/`, which begins with `/`, starts |
| `GetPlaylist.TakeUntilTwice` | getplaylist/getplaylist.go:139-140 | cutting at the first `/` and then at the first `?` is cutting at the first of either |
| `GetPlaylist.SplitHeadChar` | getplaylist/getplaylist.go:139-140 | `strings.Split(s, c)[0]` for a one-character separator is the text before the first `c` |
| `GetPlaylist.ExtractId` | getplaylist/getplaylist.go:134-140 | fails with NoId exactly when `/playlist/` does not occur in the URL; an id contains neither `/` nor `?` (and may be empty without an error) |
| `GetPlaylist.ExtractIdAfterMarker` | getplaylist/getplaylist.go:134-140 | when `/playlist/` first occurs at `p`, the id is the text after it up to the first `/` or `?`, or up to the end |
| `GetPlaylist.ExampleMarkerAt24` | getplaylist/getplaylist.go:134 | in `https://open.spotify.com/playlist/37i9dQZF1?si=abc` the first `/playlist/` starts at position 24 |
| `GetPlaylist.ExtractIdExample` | getplaylist/getplaylist.go:134-140 | `https://open.spotify.com/playlist/37i9dQZF1?si=abc` yields the id `37i9dQZF1` |
| `GetPlaylist.RequestUrl` | getplaylist/getplaylist.go:142 | the request URL is the fixed API prefix, then the id, then the fixed query: its length is the sum of the three, and its prefix, middle and suffix are exactly those three |
| `GetPlaylist.RequestUrlId` | getplaylist/getplaylist.go:142 | an id free of `/` and `?` is read back from the request URL as the path segment after the prefix |
| `GetPlaylist.MappedExample` | getplaylist/getplaylist.go:170-185 | a response with one item ("Song A" by "Artist X") maps to `[Track(0, "Song A", "Artist X")]`, and an item with no artists in second place leaves slot 1 zero |
| `GetPlaylist.MappedUnique` | getplaylist/getplaylist.go:165-184 | the decoded items determine the track list completely |
| `GetPlaylist.MapItems` | getplaylist/getplaylist.go:158-186 | a new array with one slot per item. Slot `i` is `Track(i, title, first artist)` when that artist name is non-empty, and the zero `Track` otherwise (also with no artists). The error is NoTracks when there are no items, which replaces a decode error. Otherwise the error is the decode error, or nil. The playlist name is the decoded name, or `""` when there are no items |
| `GetPlaylist.GetTracks` | getplaylist/getplaylist.go:128-187 | Errors are checked in order. An empty token gives MissingToken, before the URL is looked at. A URL without `/playlist/` gives NoId. The request is built from the extracted id and `"Bearer " + token`. A rejected request or a transport failure returns that error, a nil slice and no name. A received answer gives exactly what `MapItems` promises |

## Left out

- The HTTP request itself is not modelled: request construction, the header values and `http.DefaultClient.Do`. It is network I/O. Its three possible outcomes come in through the `respond` parameter. The fixed header values other than Authorization are not modelled.
- `resp.Body.Close` and the deferred call are not modelled. The model has no resources.
- JSON decoding through `encoding/json` is not modelled. It is a foreign library. Its outcome is the decoded value plus a flag that says whether decoding failed, and the value may be partly filled even when the flag is set.
- `os.Getenv("SPOTIFY_TOKEN")` is replaced by the `token` parameter.
- The `log.Tracef` calls are not modelled. They have no functional effect.
- The fields of the response schema that the code never reads are not modelled. These are the album, images, owner, external ids, popularity, added-at time and the like.
- The text of the error messages is not modelled, and neither is the wrapped cause in `errors.Wrap`. Only the error kinds are told apart.
- GoStrings.Split: only a non-empty separator is modelled. The code calls `strings.Split` only with the non-empty literals `"/playlist/"`, `"/"` and `"?"`, and Go's rule for an empty separator splits by UTF-8 sequence.
- Strings are sequences of bytes, with one `char` standing for one byte. UTF-8 decoding does not matter here, because `strings.Index`, `strings.Split` and slicing all work on bytes.
