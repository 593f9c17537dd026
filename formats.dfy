/**
 * parseFormats (formats.go:27-83): turn the stream-map entries into video
 * formats, keeping only complete entries and decoding the scrambled
 * signatures with the player script. The query-string parsing is outside
 * the model: each entry arrives already parsed, or as None when parsing
 * failed.
 */
module Formats {
  import opened Wrappers
  import opened Text
  import opened Decoder

  /** VideoFormat (video.go:34-39). */
  datatype VideoFormat = VideoFormat(itag: int, formatType: string, quality: string, url: string)

  /** A parsed query string: the first value of each key. */
  type Query = map<string, string>

  /** The error parseFormats returns: "Could not retrieve video formats". */
  datatype FormatsError = NoFormats

  /** url.Values.Get: the value of `key`, or "" when it is absent. */
  function Get(q: Query, key: string): string
  {
    if key in q then q[key] else ""
  }

  /** strconv.Atoi with its error ignored (formats.go:37): a signed decimal, or 0 otherwise. */
  function Itag(q: Query): (n: int)
  {
    var s := Get(q, "itag");
    if |s| > 1 && (s[0] == '+' || s[0] == '-') && forall i :: 1 <= i < |s| ==> IsDigit(s[i]) then
      var v: int := DecimalValue(s[1..]);
      if s[0] == '-' then -v else v
    else if |s| > 0 && forall i :: 0 <= i < |s| ==> IsDigit(s[i]) then DecimalValue(s)
    else 0
  }

  /** The URL of formats.go:72: the stream URL with the signature appended. */
  function SignedURL(url: string, signature: string): string
  {
    url + "&signature=" + signature
  }

  /** The scrambled signature `s` of an entry reaches the decoder (formats.go:54-61). */
  predicate NeedsDecoding(entry: Option<Query>, jsData: Option<seq<string>>)
  {
    && entry.Some?
    && Get(entry.value, "type") != "" && Get(entry.value, "quality") != "" && Get(entry.value, "url") != ""
    && Get(entry.value, "sig") == ""
    && jsData.Some?
    && Get(entry.value, "s") != ""
  }

  /** No entry makes decodeSignature panic. */
  predicate EntriesDecodable(entries: seq<Option<Query>>, jsData: Option<seq<string>>)
  {
    forall i :: 0 <= i < |entries| && NeedsDecoding(entries[i], jsData) ==>
      NoPanic(jsData.value, Get(entries[i].value, "s"))
  }

  /** One pass of the loop body (formats.go:32-75): the format it appends, or None when it skips the entry. */
  function FormatOf(entry: Option<Query>, jsData: Option<seq<string>>): (f: Option<VideoFormat>)
    requires NeedsDecoding(entry, jsData) ==> NoPanic(jsData.value, Get(entry.value, "s"))
  {
    match entry
    case None => None
    case Some(q) =>
      var fmtType, fmtQuality, fmtURL := Get(q, "type"), Get(q, "quality"), Get(q, "url");
      if fmtType == "" || fmtQuality == "" || fmtURL == "" then None
      else if Get(q, "sig") != "" then Some(VideoFormat(Itag(q), fmtType, fmtQuality, SignedURL(fmtURL, Get(q, "sig"))))
      else if jsData.None? then None
      else if Get(q, "s") == "" then Some(VideoFormat(Itag(q), fmtType, fmtQuality, SignedURL(fmtURL, "")))
      else
        match Decode(jsData.value, Get(q, "s"))
        case Err(_) => None
        case Ok(signature) => Some(VideoFormat(Itag(q), fmtType, fmtQuality, SignedURL(fmtURL, signature)))
  }

  /** The formats the loop appends, in entry order. */
  function Collect(entries: seq<Option<Query>>, jsData: Option<seq<string>>): (fs: seq<VideoFormat>)
    requires EntriesDecodable(entries, jsData)
  {
    if entries == [] then []
    else
      var init := entries[..|entries| - 1];
      assert EntriesDecodable(init, jsData) by {
        forall i | 0 <= i < |init| ensures init[i] == entries[i] { }
      }
      var last := FormatOf(entries[|entries| - 1], jsData);
      Collect(init, jsData) + (if last.Some? then [last.value] else [])
  }

  /**
   * parseFormats (formats.go:27-83): the formats of the complete entries, or
   * an error when none survives.
   */
  method ParseFormats(entries: seq<Option<Query>>, jsData: Option<seq<string>>)
    returns (r: Result<seq<VideoFormat>, FormatsError>)
    requires EntriesDecodable(entries, jsData)
    ensures r == if Collect(entries, jsData) == [] then Err(NoFormats) else Ok(Collect(entries, jsData))
  {
    var formats: seq<VideoFormat> := [];
    for i := 0 to |entries|
      invariant EntriesDecodable(entries[..i], jsData)
      invariant formats == Collect(entries[..i], jsData)
    {
      assert entries[..i + 1][..i] == entries[..i];
      assert EntriesDecodable(entries[..i + 1], jsData) by {
        forall j | 0 <= j <= i ensures entries[..i + 1][j] == entries[j] { }
      }
      if entries[i].None? {
        continue;
      }
      var query := entries[i].value;
      var fmtItag := Itag(query);
      var fmtType := Get(query, "type");
      if fmtType == "" {
        continue;
      }
      var fmtQuality := Get(query, "quality");
      if fmtQuality == "" {
        continue;
      }
      var fmtURL := Get(query, "url");
      if fmtURL == "" {
        continue;
      }
      var signature := Get(query, "sig");
      if signature == "" {
        if jsData.None? {
          continue;
        }
        signature := Get(query, "s");
        if signature != "" {
          var decoded := DecodeSignature(jsData.value, signature);
          if decoded.Err? {
            continue;
          }
          signature := decoded.value;
        }
      }
      formats := formats + [VideoFormat(fmtItag, fmtType, fmtQuality, SignedURL(fmtURL, signature))];
    }
    assert entries[..|entries|] == entries;
    if |formats| == 0 {
      return Err(NoFormats);
    }
    return Ok(formats);
  }

  /**
   * An entry yields a format only when it parsed and its type, quality and
   * URL are all non-empty; the format carries those fields and its URL is
   * the stream URL followed by `&signature=` (formats.go:39-52, 68-73).
   */
  lemma KeptEntriesAreComplete(entry: Option<Query>, jsData: Option<seq<string>>)
    requires NeedsDecoding(entry, jsData) ==> NoPanic(jsData.value, Get(entry.value, "s"))
    requires FormatOf(entry, jsData).Some?
    ensures entry.Some?
    ensures var q, f := entry.value, FormatOf(entry, jsData).value;
      && Get(q, "type") != "" && Get(q, "quality") != "" && Get(q, "url") != ""
      && f.formatType == Get(q, "type") && f.quality == Get(q, "quality") && f.itag == Itag(q)
      && HasAt(f.url, 0, Get(q, "url") + "&signature=")
  {
  }

  /** A non-empty `sig` is put into the URL unchanged, without consulting the script (formats.go:54-55, 72). */
  lemma SigPassedThrough(q: Query, jsData: Option<seq<string>>)
    requires Get(q, "type") != "" && Get(q, "quality") != "" && Get(q, "url") != ""
    requires Get(q, "sig") != ""
    ensures !NeedsDecoding(Some(q), jsData)
    ensures FormatOf(Some(q), jsData) ==
      Some(VideoFormat(Itag(q), Get(q, "type"), Get(q, "quality"), Get(q, "url") + "&signature=" + Get(q, "sig")))
  {
  }

  /** An entry whose scrambled signature fails to decode is skipped silently (formats.go:60-64). */
  lemma UndecodableEntrySkipped(entry: Option<Query>, jsData: Option<seq<string>>)
    requires NeedsDecoding(entry, jsData) && NoPanic(jsData.value, Get(entry.value, "s"))
    requires Decode(jsData.value, Get(entry.value, "s")).Err?
    ensures FormatOf(entry, jsData).None?
  {
  }

  /** A decoded signature goes into the URL (formats.go:60-61, 72). */
  lemma DecodedSignatureUsed(entry: Option<Query>, jsData: Option<seq<string>>)
    requires NeedsDecoding(entry, jsData) && NoPanic(jsData.value, Get(entry.value, "s"))
    requires Decode(jsData.value, Get(entry.value, "s")).Ok?
    ensures FormatOf(entry, jsData).Some?
    ensures FormatOf(entry, jsData).value.url ==
      Get(entry.value, "url") + "&signature=" + Decode(jsData.value, Get(entry.value, "s")).value
  {
  }

  /** At most one format per entry (formats.go:73). */
  lemma {:induction false} CollectLength(entries: seq<Option<Query>>, jsData: Option<seq<string>>)
    requires EntriesDecodable(entries, jsData)
    ensures |Collect(entries, jsData)| <= |entries|
  {
    if entries != [] {
      var init := entries[..|entries| - 1];
      assert forall i :: 0 <= i < |init| ==> init[i] == entries[i];
      CollectLength(init, jsData);
    }
  }

  /** The result lists exactly the formats of the kept entries (formats.go:73). */
  lemma {:induction false} CollectMembers(entries: seq<Option<Query>>, jsData: Option<seq<string>>, f: VideoFormat)
    requires EntriesDecodable(entries, jsData)
    ensures f in Collect(entries, jsData) <==>
      exists i :: 0 <= i < |entries| && FormatOf(entries[i], jsData) == Some(f)
  {
    if entries != [] {
      var init := entries[..|entries| - 1];
      assert forall i :: 0 <= i < |init| ==> init[i] == entries[i];
      CollectMembers(init, jsData, f);
      var last := FormatOf(entries[|entries| - 1], jsData);
      assert Collect(entries, jsData) == Collect(init, jsData) + (if last.Some? then [last.value] else []);
      if exists i :: 0 <= i < |entries| && FormatOf(entries[i], jsData) == Some(f) {
        var i :| 0 <= i < |entries| && FormatOf(entries[i], jsData) == Some(f);
        if i < |init| {
          assert FormatOf(init[i], jsData) == Some(f);
        }
      }
    }
  }

  /** parseFormats fails exactly when no entry is kept (formats.go:77-80). */
  lemma {:induction false} CollectEmpty(entries: seq<Option<Query>>, jsData: Option<seq<string>>)
    requires EntriesDecodable(entries, jsData)
    ensures Collect(entries, jsData) == [] <==>
      forall i :: 0 <= i < |entries| ==> FormatOf(entries[i], jsData).None?
  {
    if entries != [] {
      var init := entries[..|entries| - 1];
      assert forall i :: 0 <= i < |init| ==> init[i] == entries[i];
      CollectEmpty(init, jsData);
    }
  }

  /** Kept entries keep their relative order: the formats of `a + b` are those of `a` followed by those of `b`. */
  lemma {:induction false} CollectInOrder(a: seq<Option<Query>>, b: seq<Option<Query>>, jsData: Option<seq<string>>)
    requires EntriesDecodable(a + b, jsData)
    ensures EntriesDecodable(a, jsData) && EntriesDecodable(b, jsData)
    ensures Collect(a + b, jsData) == Collect(a, jsData) + Collect(b, jsData)
    decreases |b|
  {
    assert forall i :: 0 <= i < |a| ==> (a + b)[i] == a[i];
    assert forall i :: 0 <= i < |b| ==> (a + b)[|a| + i] == b[i];
    if b == [] {
      assert a + b == a;
    } else {
      var binit := b[..|b| - 1];
      assert (a + b)[..|a + b| - 1] == a + binit;
      assert forall i :: 0 <= i < |binit| ==> binit[i] == b[i];
      CollectInOrder(a, binit, jsData);
    }
  }
}
