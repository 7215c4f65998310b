/**
 * Feature normalisation: every raw feature becomes a `{name, geometry}` record and its
 * composite name `"<prefix>///<label>///..."` is reduced to the stripped label.
 */
module Labels {
  import opened Wrappers
  import opened PyStr
  import opened Geometry

  /** The delimiter of the composite feature names. */
  const Delimiter := "///"

  /** The only failure the label extraction has: indexing past the end of the split. */
  datatype ExtractError = IndexError

  /** `name.split('///')[part].strip()`; a part past the last piece raises `IndexError`. */
  function ExtractPart(name: string, part: nat): Result<string, ExtractError>
  {
    var pieces := Split(name, Delimiter);
    if part < |pieces| then Success(Strip(pieces[part])) else Failure(IndexError)
  }

  /** `extract_first_part(name)` with its default (and only used) `part=1`. */
  function ExtractFirstPart(name: string): Result<string, ExtractError>
  {
    ExtractPart(name, 1)
  }

  /**
   * `i` is the first occurrence of the delimiter in `name`, and `j` is where the next one
   * starts, or the end of `name` when there is no second one.
   */
  ghost predicate FirstTwoDelimiters(name: string, i: int, j: int)
  {
    && OccursAt(name, Delimiter, i)
    && (forall k :: 0 <= k < i ==> !OccursAt(name, Delimiter, k))
    && i + |Delimiter| <= j <= |name|
    && (j == |name| || OccursAt(name, Delimiter, j))
    && (forall k :: i + |Delimiter| <= k < j ==> !OccursAt(name, Delimiter, k))
  }

  /** The extraction fails exactly when the name holds no delimiter; there is no fallback value. */
  lemma ExtractFirstPartFails(name: string)
    ensures ExtractFirstPart(name).Failure? <==> Free(name, Delimiter)
    ensures ExtractFirstPart(name).Failure? ==> ExtractFirstPart(name).error == IndexError
  {
    SplitHasSecondPiece(name, Delimiter);
  }

  /** When the name holds a delimiter, its first two delimiters are where `Find` puts them. */
  lemma DelimitersLocated(name: string)
    requires !Free(name, Delimiter)
    ensures FirstTwoDelimiters(name, Find(name, Delimiter, 0), Find(name, Delimiter, Find(name, Delimiter, 0) + |Delimiter|))
  {
    var i := Find(name, Delimiter, 0);
    var k :| 0 <= k <= |name| && OccursAt(name, Delimiter, k);
    assert i <= k;
  }

  /** The label is the text between the first and the second delimiter (or the end), stripped. */
  lemma ExtractFirstPartIsBetween(name: string, i: nat, j: nat)
    requires FirstTwoDelimiters(name, i, j)
    ensures ExtractFirstPart(name) == Success(Strip(name[i + |Delimiter|..j]))
    ensures StripsTo(name[i + |Delimiter|..j], ExtractFirstPart(name).value)
  {
    var d := |Delimiter|;
    FindIsFirst(name, Delimiter, 0, i);
    FindIsFirst(name, Delimiter, i + d, j);
    var rest := name[i + d..];
    FindInSuffix(name, Delimiter, i + d);
    assert rest[..j - (i + d)] == name[i + d..j];
    var pieces := Split(name, Delimiter);
    assert pieces == [name[..i]] + Split(rest, Delimiter);
    assert Split(rest, Delimiter)[0] == rest[..j - (i + d)];
    assert pieces[1] == Split(rest, Delimiter)[0];
    StripCharacterised(name[i + d..j], "");
  }

  /** A label that was extracted neither starts nor ends with whitespace, and holds no delimiter. */
  lemma ExtractedLabelIsClean(name: string)
    requires ExtractFirstPart(name).Success?
    ensures var text := ExtractFirstPart(name).value;
      && (text == [] || (!IsSpace(text[0]) && !IsSpace(text[|text| - 1])))
      && Free(text, Delimiter)
  {
    var pieces := Split(name, Delimiter);
    var piece := pieces[1];
    var text := Strip(piece);
    SplitPiecesFree(name, Delimiter);
    StripCharacterised(piece, text);
    var a :| TrimmedAt(piece, text, a);
    forall k | 0 <= k <= |text| ensures !OccursAt(text, Delimiter, k) {
      OccursInWindow(piece, text, a, k);
    }
  }

  /** An occurrence inside a window of `s` is an occurrence in `s`. */
  lemma OccursInWindow(s: string, w: string, a: nat, k: int)
    requires a + |w| <= |s| && s[a..a + |w|] == w
    requires Free(s, Delimiter)
    ensures !OccursAt(w, Delimiter, k)
  {
    if 0 <= k && k + |Delimiter| <= |w| {
      var n := |Delimiter|;
      var inW, inS := w[k..k + n], s[a + k..a + k + n];
      forall t | 0 <= t < n ensures inW[t] == inS[t] {
        assert inW[t] == w[k + t] == s[a..a + |w|][k + t];
      }
      assert inW == inS;
      assert !OccursAt(s, Delimiter, a + k);
    }
  }

  /**
   * `process_data`: the first loop builds one `{name, geometry}` record per raw feature,
   * the second overwrites each record's name with its extracted text. The first name
   * without a delimiter makes the whole call raise `IndexError`.
   */
  method ProcessData(raw: seq<Feature>) returns (r: Result<seq<Feature>, ExtractError>)
    ensures r.Success? <==> forall k :: 0 <= k < |raw| ==> ExtractFirstPart(raw[k].name).Success?
    ensures r.Failure? ==> r.error == IndexError
    ensures r.Success? ==> |r.value| == |raw|
    ensures r.Success? ==> forall k :: 0 <= k < |raw| ==>
      r.value[k] == Feature(ExtractFirstPart(raw[k].name).value, raw[k].geometry)
  {
    var geoList: seq<Feature> := [];
    for i := 0 to |raw|
      invariant geoList == raw[..i]
    {
      geoList := geoList + [Feature(raw[i].name, raw[i].geometry)];
    }
    for i := 0 to |geoList|
      invariant |geoList| == |raw|
      invariant forall k :: 0 <= k < i ==> ExtractFirstPart(raw[k].name).Success?
      invariant forall k :: 0 <= k < i ==> geoList[k] == Feature(ExtractFirstPart(raw[k].name).value, raw[k].geometry)
      invariant forall k :: i <= k < |raw| ==> geoList[k] == raw[k]
    {
      var text := ExtractFirstPart(geoList[i].name);
      if text.Failure? {
        return Failure(IndexError);
      }
      geoList := geoList[i := geoList[i].(name := text.value)];
    }
    r := Success(geoList);
  }
}
