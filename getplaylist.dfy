/** The playlist fetcher: from a shareable playlist link and a bearer token,
    find the playlist id, ask the provider for the playlist, and turn the
    decoded items into `(number, title, artist)` records.  The HTTP exchange
    and the JSON decoder are not modelled; their outcome is a parameter. */
module GetPlaylist {
  import opened GoStrings

  /** The output record.  `Track(0, "", "")` is Go's zero value. */
  datatype Track = Track(number: int, title: string, artist: string)

  const ZeroTrack := Track(0, "", "")

  /** The decoded response, reduced to the fields the code reads. */
  datatype Artist = Artist(name: string)
  datatype SpotifyTrack = SpotifyTrack(name: string, artists: seq<Artist>)
  datatype Item = Item(track: SpotifyTrack)
  datatype Tracks = Tracks(items: seq<Item>)
  datatype SpotifyData = SpotifyData(name: string, tracks: Tracks)

  /** The error kinds the code can return. */
  datatype Error =
    | MissingToken   // SPOTIFY_TOKEN is empty
    | NoId           // "could not get id"
    | BadRequest     // http.NewRequest refused the request URL
    | Transport      // http.DefaultClient.Do failed
    | Decode         // "could not decode spotify data"
    | NoTracks       // "could not find any tracks"

  datatype Result<T> = Ok(value: T) | Err(error: Error)

  /** A Go `error` value: `None` stands for `nil`. */
  datatype Option<T> = None | Some(value: T)

  /** What the network and the JSON decoder produced for one request. */
  datatype Exchange =
    | RequestRejected
    | TransportFailed
    | Received(data: SpotifyData, decodeFailed: bool)

  // ---------------------------------------------------------------------
  // getStringInBetween
  // ---------------------------------------------------------------------

  /** The text between the first `start` in `str` and the first `end` after
      it; empty when `start` is missing, when `end` is missing after it, and
      when `end` follows `start` immediately. */
  function StringInBetween(str: string, start: string, end: string): (result: string)
    ensures !Contains(str, start) ==> result == ""
    ensures result != "" ==> Contains(str, start + result + end)
    ensures result != "" ==> !Contains(result, end)
  {
    var s := Index(str, start);
    if s == -1 then
      ""
    else
      var s' := s + |start|;
      var e := Index(str[s'..], end);
      if s' + e < |str| && e > 0 then
        BetweenOccurrences(str, start, end, s, e);
        str[s'..s' + e]
      else
        ""
  }

  /** The text between an occurrence of `start` at `s` and the first `end`
      after it sits between the two in `str` and holds no `end` itself. */
  lemma BetweenOccurrences(str: string, start: string, end: string, s: nat, e: nat)
    requires OccursAt(str, start, s)
    requires 0 < e && IsFirst(str[s + |start|..], end, e)
    ensures var mid := str[s + |start|..s + |start| + e];
      Contains(str, start + mid + end) && !Contains(mid, end)
  {
    var s' := s + |start|;
    var mid := str[s'..s' + e];
    var stop := s' + e + |end|;
    assert str[s'..][e..e + |end|] == str[s' + e..stop] == end;
    assert str[s..s'] == start;
    assert stop <= |str|;
    assert str[s..s' + e] == str[s..s'] + str[s'..s' + e];
    assert str[s..stop] == str[s..s' + e] + str[s' + e..stop];
    assert str[s..s + |start + mid + end|] == start + mid + end;
    assert OccursAt(str, start + mid + end, s);
    assert mid == str[s'..][..e];
    assert !OccursAt(str[s'..], end, 0);
    assert |end| > 0;
    forall j | OccursAt(mid, end, j) ensures false {
      OccursInPrefix(str[s'..], e, end, j);
    }
  }

  /** When `start` first occurs at `p` and `end` first occurs `e > 0`
      characters after it, the result is exactly the text in between. */
  lemma StringInBetweenFound(str: string, start: string, end: string, p: nat, e: nat)
    requires IsFirst(str, start, p)
    requires 0 < e && IsFirst(str[p + |start|..], end, e)
    ensures StringInBetween(str, start, end) == str[p + |start|..p + |start| + e]
  {
  }

  /** When `start` first occurs at `p` but `end` does not occur after it, or
      occurs right after it (always so for an empty `end`), the result is empty. */
  lemma StringInBetweenEmpty(str: string, start: string, end: string, p: nat)
    requires IsFirst(str, start, p)
    requires !Contains(str[p + |start|..], end) || OccursAt(str[p + |start|..], end, 0)
    ensures StringInBetween(str, start, end) == ""
  {
  }

  // ---------------------------------------------------------------------
  // getAccessToken
  // ---------------------------------------------------------------------

  /** getAccessToken with the value of SPOTIFY_TOKEN passed in: an empty
      token is an error, any other token is used as it is. */
  function AccessToken(token: string): (r: Result<string>)
    ensures r.Err? <==> token == ""
    ensures r.Err? ==> r.error == MissingToken
    ensures r.Ok? ==> r.value == token
  {
    if token == "" then Err(MissingToken) else Ok(token)
  }

  // ---------------------------------------------------------------------
  // Playlist id
  // ---------------------------------------------------------------------

  const PlaylistMarker := "/playlist/"

  /** The longest prefix of `s` holding no character of `stops`. */
  function TakeUntil(s: string, stops: set<char>): (r: string)
    ensures |r| <= |s| && r == s[..|r|]
    ensures forall i :: 0 <= i < |r| ==> r[i] !in stops
    ensures |r| == |s| || s[|r|] in stops
  {
    if |s| == 0 || s[0] in stops then "" else [s[0]] + TakeUntil(s[1..], stops)
  }

  /** The three conditions in the contract of TakeUntil single out its result. */
  lemma TakeUntilUnique(s: string, stops: set<char>, t: string)
    requires |t| <= |s| && t == s[..|t|]
    requires forall i :: 0 <= i < |t| ==> t[i] !in stops
    requires |t| == |s| || s[|t|] in stops
    ensures t == TakeUntil(s, stops)
  {
  }

  /** Cutting a prefix that ends at a stop character (or at the end) does not
      change where the first stop character is. */
  lemma TakeUntilPrefix(t: string, u: string, stops: set<char>)
    requires |t| <= |u| && t == u[..|t|]
    requires |t| == |u| || u[|t|] in stops
    ensures TakeUntil(t, stops) == TakeUntil(u, stops)
  {
  }

  /** Cutting at the first `A` and then at the first `B` cuts at the first
      character of either. */
  lemma TakeUntilTwice(s: string, a: set<char>, b: set<char>)
    ensures TakeUntil(TakeUntil(s, a), b) == TakeUntil(s, a + b)
  {
  }

  /** `strings.Split(s, string(c))[0]` is the text before the first `c`. */
  lemma SplitHeadChar(s: string, c: char)
    ensures Split(s, [c])[0] == TakeUntil(s, {c})
  {
    var k := Index(s, [c]);
    if k == -1 {
      forall i | 0 <= i < |s| ensures s[i] !in {c} {
        assert !OccursAt(s, [c], i);
      }
      TakeUntilUnique(s, {c}, s);
    } else {
      assert s[k..k + 1] == [c];
      forall i | 0 <= i < k ensures s[..k][i] !in {c} {
        assert !OccursAt(s, [c], i);
      }
      TakeUntilUnique(s, {c}, s[..k]);
    }
  }

  /** The id extraction of GetTracks: split the URL on "/playlist/", take the
      second part, cut it at the first "/" and then at the first "?". */
  function ExtractId(url: string): (r: Result<string>)
    ensures r.Err? <==> !Contains(url, PlaylistMarker)
    ensures r.Err? ==> r.error == NoId
    ensures r.Ok? ==> '/' !in r.value && '?' !in r.value
  {
    var parts := Split(url, PlaylistMarker);
    if |parts| < 2 then
      Err(NoId)
    else
      var id := Split(parts[1], "/")[0];
      SplitHeadChar(parts[1], '/');
      SplitHeadChar(id, '?');
      Ok(Split(id, "?")[0])
  }

  /** The split-based extraction yields the text after the first
      "/playlist/" up to the first "/" or "?", or up to the end. */
  lemma ExtractIdAfterMarker(url: string, p: nat)
    requires IsFirst(url, PlaylistMarker, p)
    ensures ExtractId(url) == Ok(TakeUntil(url[p + |PlaylistMarker|..], {'/', '?'}))
  {
    IndexOfFirst(url, PlaylistMarker, p);
    var rest := url[p + |PlaylistMarker|..];
    var parts := Split(url, PlaylistMarker);
    assert parts[1] == Split(rest, PlaylistMarker)[0];
    var h := parts[1];
    // the second part ends where `rest` ends or where the next marker,
    // whose first character is '/', starts
    var k := Index(rest, PlaylistMarker);
    if k != -1 {
      assert rest[k..k + |PlaylistMarker|] == PlaylistMarker;
      assert rest[k] == '/';
    }
    assert |h| <= |rest| && h == rest[..|h|];
    assert |h| == |rest| || rest[|h|] in {'/'};
    SplitHeadChar(h, '/');
    TakeUntilPrefix(h, rest, {'/'});
    var id := Split(h, "/")[0];
    SplitHeadChar(id, '?');
    TakeUntilTwice(rest, {'/'}, {'?'});
    assert {'/'} + {'?'} == {'/', '?'};
  }

  const ExampleHost := "https://open.spotify.com"
  const ExampleTail := "37i9dQZF1?si=abc"
  const ExampleUrl := ExampleHost + PlaylistMarker + ExampleTail

  /** In the example URL the first "/playlist/" starts at position 24. */
  lemma ExampleMarkerAt24()
    ensures IsFirst(ExampleUrl, PlaylistMarker, 24)
  {
    var url := ExampleUrl;
    assert |ExampleHost| == 24;
    assert url[24..34] == PlaylistMarker;
    ExampleNoEarlierMarker();
  }

  lemma ExampleNoEarlierMarker()
    ensures forall j :: 0 <= j < 24 ==> !OccursAt(ExampleUrl, PlaylistMarker, j)
  {
    var url := ExampleUrl;
    forall j | 0 <= j < 24 ensures !OccursAt(url, PlaylistMarker, j) {
      if j == 6 {
        assert url[j + 1] != PlaylistMarker[1];
      } else {
        assert url[j] != '/' || url[j + 9] != '/';
      }
    }
  }

  /** After the marker the id runs up to the '?'. */
  lemma ExampleIdText()
    ensures TakeUntil(ExampleUrl[34..], {'/', '?'}) == "37i9dQZF1"
  {
    var rest := ExampleUrl[34..];
    assert rest == ExampleTail;
    TakeUntilUnique(rest, {'/', '?'}, "37i9dQZF1");
  }

  /** ".../playlist/37i9dQZF1?si=abc" yields the id "37i9dQZF1". */
  lemma ExtractIdExample()
    ensures ExtractId(ExampleUrl) == Ok("37i9dQZF1")
  {
    ExampleMarkerAt24();
    ExtractIdAfterMarker(ExampleUrl, 24);
    ExampleIdText();
  }

  // ---------------------------------------------------------------------
  // Items to tracks
  // ---------------------------------------------------------------------

  /** The name of the item's first artist, or "" when it lists none. */
  function FirstArtistName(item: Item): string {
    if |item.track.artists| > 0 then item.track.artists[0].name else ""
  }

  /** `s` is the track list built from `items`: one slot per item, slot `i`
      is `Track(i, title, artist)` when the first artist has a name, and the
      zero value otherwise. */
  ghost predicate Mapped(items: seq<Item>, s: seq<Track>) {
    && |s| == |items|
    && (forall i :: 0 <= i < |items| && FirstArtistName(items[i]) != "" ==>
          s[i] == Track(i, items[i].track.name, FirstArtistName(items[i])))
    && (forall i :: 0 <= i < |items| && FirstArtistName(items[i]) == "" ==>
          s[i] == ZeroTrack)
  }

  /** A one-item response maps to one filled record; adding an item with no
      artists leaves its slot zero without shifting the others. */
  lemma MappedExample()
    ensures Mapped([Item(SpotifyTrack("Song A", [Artist("Artist X")]))],
                   [Track(0, "Song A", "Artist X")])
    ensures Mapped([Item(SpotifyTrack("Song A", [Artist("Artist X")])),
                    Item(SpotifyTrack("Song B", []))],
                   [Track(0, "Song A", "Artist X"), ZeroTrack])
  {
  }

  /** The items determine the track list completely. */
  lemma MappedUnique(items: seq<Item>, s: seq<Track>, t: seq<Track>)
    requires Mapped(items, s) && Mapped(items, t)
    ensures s == t
  {
  }

  /** The decode-and-map tail of GetTracks (from the decoder's result on):
      allocate a zero-filled slot per decoded item, fail with NoTracks when
      there are none (replacing any decode error), otherwise fill the slots of
      the items whose first artist has a name, keep the decode error if there
      was one, and return the playlist name. */
  method MapItems(data: SpotifyData, decodeFailed: bool)
    returns (playlistName: string, tracks: array<Track>, err: Option<Error>)
    ensures fresh(tracks)
    ensures Mapped(data.tracks.items, tracks[..])
    ensures |data.tracks.items| == 0 ==> err == Some(NoTracks) && playlistName == ""
    ensures |data.tracks.items| > 0 ==>
      err == (if decodeFailed then Some(Decode) else None) && playlistName == data.name
  {
    playlistName := "";
    err := None;
    if decodeFailed {
      err := Some(Decode);
    }
    var items := data.tracks.items;
    tracks := new Track[|items|](_ => ZeroTrack);
    if tracks.Length == 0 {
      err := Some(NoTracks);
      return;
    }
    for i := 0 to |items|
      invariant forall j :: 0 <= j < i && FirstArtistName(items[j]) != "" ==>
        tracks[j] == Track(j, items[j].track.name, FirstArtistName(items[j]))
      invariant forall j :: 0 <= j < i && FirstArtistName(items[j]) == "" ==>
        tracks[j] == ZeroTrack
      invariant forall j :: i <= j < |items| ==> tracks[j] == ZeroTrack
    {
      var track := items[i];
      var name := "";
      if |track.track.artists| > 0 {
        name := track.track.artists[0].name;
      }
      if name == "" {
        continue;
      }
      tracks[i] := Track(i, track.track.name, name);
    }
    playlistName := data.name;
  }

  // ---------------------------------------------------------------------
  // GetTracks
  // ---------------------------------------------------------------------

  const ApiPrefix := "https://api.spotify.com/v1/playlists/"
  const ApiQuery := "?type=track%2Cepisode&market=US"

  /** The request URL for a playlist id. */
  function RequestUrl(id: string): (u: string)
    ensures |u| == |ApiPrefix| + |id| + |ApiQuery|
    ensures u[..|ApiPrefix|] == ApiPrefix && u[|u| - |ApiQuery|..] == ApiQuery
    ensures u[|ApiPrefix|..|u| - |ApiQuery|] == id
  {
    ApiPrefix + id + ApiQuery
  }

  /** An id as ExtractId returns it, free of "/" and "?", is exactly the last
      path segment of the request URL: it is read back up to the query. */
  lemma RequestUrlId(id: string)
    requires '/' !in id && '?' !in id
    ensures TakeUntil(RequestUrl(id)[|ApiPrefix|..], {'/', '?'}) == id
  {
    var rest := RequestUrl(id)[|ApiPrefix|..];
    assert rest == id + ApiQuery;
    assert rest[|id|] == '?';
    TakeUntilUnique(rest, {'/', '?'}, id);
  }

  /** GetTracks.  `token` is the value of SPOTIFY_TOKEN; `respond` stands
      for the HTTP exchange and the JSON decoder: given the request URL and
      the Authorization header it says what came back.  A nil slice is `null`. */
  method GetTracks(token: string, spotifyURL: string, respond: (string, string) -> Exchange)
    returns (playlistName: string, tracks: array?<Track>, err: Option<Error>)
    ensures token == "" ==>
      err == Some(MissingToken) && tracks == null && playlistName == ""
    ensures token != "" && !Contains(spotifyURL, PlaylistMarker) ==>
      err == Some(NoId) && tracks == null && playlistName == ""
    ensures token != "" && Contains(spotifyURL, PlaylistMarker) ==>
      var ex := respond(RequestUrl(ExtractId(spotifyURL).value), "Bearer " + token);
      && (ex.RequestRejected? ==> err == Some(BadRequest) && tracks == null && playlistName == "")
      && (ex.TransportFailed? ==> err == Some(Transport) && tracks == null && playlistName == "")
      && (ex.Received? ==>
            && tracks != null && fresh(tracks)
            && Mapped(ex.data.tracks.items, tracks[..])
            && (|ex.data.tracks.items| == 0 ==> err == Some(NoTracks) && playlistName == "")
            && (|ex.data.tracks.items| > 0 ==>
                  err == (if ex.decodeFailed then Some(Decode) else None)
                  && playlistName == ex.data.name))
  {
    playlistName, tracks, err := "", null, None;
    var access := AccessToken(token);
    if access.Err? {
      err := Some(access.error);
      return;
    }
    var id := ExtractId(spotifyURL);
    if id.Err? {
      err := Some(id.error);
      return;
    }
    var exchange := respond(RequestUrl(id.value), "Bearer " + access.value);
    match exchange
    case RequestRejected =>
      err := Some(BadRequest);
    case TransportFailed =>
      err := Some(Transport);
    case Received(data, decodeFailed) =>
      var t: array<Track>;
      playlistName, t, err := MapItems(data, decodeFailed);
      tracks := t;
  }
}
