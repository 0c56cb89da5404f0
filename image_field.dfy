/**
  The header split of the Base64 image field: a `data:image/<ext>;base64,<payload>`
  string becomes a file named `temp.<ext>` holding the payload; any other
  value is handed on unchanged to the parent image field. Decoding the
  payload and validating the image are not modelled.
*/
module ImageField {
  import opened Outcomes
  import opened PyStr

  const DataUriPrefix := "data:image"
  const Base64Marker := ";base64,"

  /** What a client sends in the `image` field: a string, or any other value. */
  datatype ImageInput = Text(text: string) | Other(value: string)

  /** A value handed on unchanged, or the file made from a data URI (payload still encoded). */
  datatype ImageValue = PassedOn(input: ImageInput) | Decoded(fileName: string, encoded: string)

  predicate StartsWith(s: string, prefix: string) {
    |prefix| <= |s| && s[..|prefix|] == prefix
  }

  /** `s.split(sep)[-1]`. */
  function LastSegment(s: string, sep: string): (r: string)
    requires |sep| > 0
    ensures Find(r, sep).None?
    ensures Find(s, sep).None? ==> r == s
  {
    var parts := SplitOn(s, sep);
    assert parts[|parts| - 1] in parts;
    parts[|parts| - 1]
  }

  predicate IsDataUri(data: ImageInput) {
    data.Text? && StartsWith(data.text, DataUriPrefix)
  }

  /** `Base64ImageField.to_internal_value`, up to the call of the parent field. */
  function ToInternalValue(data: ImageInput): (r: Result<ImageValue>)
    ensures !IsDataUri(data) ==> r == Ok(PassedOn(data))
    ensures IsDataUri(data) ==> (r.Err? <==> |SplitOn(data.text, Base64Marker)| != 2)
    ensures r.Err? ==> r.error == MalformedDataUri
    ensures r.Ok? && IsDataUri(data) ==> r.value.Decoded?
  {
    if IsDataUri(data) then
      var parts := SplitOn(data.text, Base64Marker);
      if |parts| != 2 then Err(MalformedDataUri)
      else
        var ext := LastSegment(parts[0], "/");
        Ok(Decoded("temp." + ext, parts[1]))
    else Ok(PassedOn(data))
  }

  lemma {:induction false} JoinLast(sep: string, parts: seq<string>)
    requires |parts| >= 2
    ensures Join(sep, parts) == Join(sep, parts[..|parts| - 1]) + sep + parts[|parts| - 1]
    decreases |parts|
  {
    if |parts| > 2 {
      JoinLast(sep, parts[1..]);
      assert parts[1..][..|parts| - 2] == parts[..|parts| - 1][1..];
    }
  }

  /**
    The extension is the text after the last `/` of the header: it holds no
    `/`, ends the header, and is either the whole header or follows a `/`.
  */
  lemma {:induction false} ExtensionAfterLastSlash(header: string)
    ensures var ext := LastSegment(header, "/");
      && '/' !in ext
      && |ext| <= |header|
      && header[|header| - |ext|..] == ext
      && (|ext| == |header| || header[|header| - |ext| - 1] == '/')
  {
    var parts := SplitOn(header, "/");
    var ext := parts[|parts| - 1];
    assert '/' !in ext by {
      assert ext in parts;
      FindNoneChar(ext, '/');
    }
    if |parts| >= 2 {
      var front := Join("/", parts[..|parts| - 1]);
      assert header == front + "/" + ext by {
        JoinSplit(header, "/");
        JoinLast("/", parts);
      }
      SuffixAfter(header, front, "/", ext);
    } else {
      assert header == ext by {
        JoinSplit(header, "/");
      }
    }
  }

  /** In `front + sep + tail`, the tail ends the text and follows a separator. */
  lemma {:induction false} SuffixAfter(s: string, front: string, sep: string, tail: string)
    requires s == front + sep + tail && |sep| == 1
    ensures s[|s| - |tail|..] == tail && s[|s| - |tail| - 1] == sep[0]
  {
  }

  /**
    Text that does not hold the marker, followed by the marker, splits at
    that marker first: the marker cannot straddle the join, because it
    starts with `;` and holds no other `;`.
  */
  lemma {:induction false} MarkerSplitFirst(header: string, rest: string)
    requires Find(header, Base64Marker).None?
    ensures SplitOn(header + Base64Marker + rest, Base64Marker) == [header] + SplitOn(rest, Base64Marker)
  {
    var m := Base64Marker;
    var s := header + m + rest;
    assert OccursAt(s, m, |header|) by {
      assert s[|header|..|header| + |m|] == m;
    }
    forall j | 0 <= j < |header| ensures !OccursAt(s, m, j) {
      if j + |m| <= |header| {
        assert s[j..j + |m|] == header[j..j + |m|];
        assert !OccursAt(header, m, j);
      } else {
        var d := |header| - j;
        assert s[j..j + |m|][d] == s[|header|] == ';';
        assert m[d] != ';';
      }
    }
    assert Find(s, m) == Some(|header|);
    assert s[..|header|] == header;
    assert s[|header| + |m|..] == rest;
  }

  /**
    A data URI whose header and payload do not hold the marker decodes to a
    file named after the header's extension, carrying exactly the payload.
  */
  lemma {:induction false} DataUriRoundTrip(header: string, payload: string)
    requires StartsWith(header, DataUriPrefix)
    requires Find(header, Base64Marker).None? && Find(payload, Base64Marker).None?
    ensures ToInternalValue(Text(header + Base64Marker + payload))
         == Ok(Decoded("temp." + LastSegment(header, "/"), payload))
  {
    var s := header + Base64Marker + payload;
    assert s[..|DataUriPrefix|] == header[..|DataUriPrefix|];
    MarkerSplitFirst(header, payload);
  }

  /** A data URI without the `;base64,` marker is refused. */
  lemma {:induction false} MissingMarkerRefused(s: string)
    requires StartsWith(s, DataUriPrefix) && Find(s, Base64Marker).None?
    ensures ToInternalValue(Text(s)) == Err(MalformedDataUri)
  {
  }

  /** A data URI with the marker twice or more is refused as well. */
  lemma {:induction false} RepeatedMarkerRefused(header: string, middle: string, payload: string)
    requires StartsWith(header, DataUriPrefix) && Find(header, Base64Marker).None?
    ensures ToInternalValue(Text(header + Base64Marker + middle + Base64Marker + payload))
         == Err(MalformedDataUri)
  {
    var rest := middle + Base64Marker + payload;
    var s := header + Base64Marker + rest;
    assert s == header + Base64Marker + middle + Base64Marker + payload;
    assert s[..|DataUriPrefix|] == header[..|DataUriPrefix|];
    MarkerSplitFirst(header, rest);
    MarkerSplits(middle, payload);
  }

  /** Text holding the marker splits into two parts or more. */
  lemma {:induction false} MarkerSplits(front: string, back: string)
    ensures |SplitOn(front + Base64Marker + back, Base64Marker)| >= 2
  {
    var s := front + Base64Marker + back;
    assert OccursAt(s, Base64Marker, |front|) by {
      assert s[|front|..|front| + |Base64Marker|] == Base64Marker;
    }
  }
}
