/**
 * The name under which "Download Renamed" saves the image: the extension
 * of the uploaded file is carried over to the model's suggested name.
 */
module FileNames {
  import opened JsStrings

  /**
   * `name.split(".").pop()`: the text after the last dot of the name, or
   * the whole name when it has no dot.
   */
  function Extension(name: string): (ext: string)
    ensures '.' !in ext
    ensures EndsWith(name, ext)
    ensures '.' in name ==> |ext| < |name| && name[|name| - |ext| - 1] == '.'
    ensures '.' !in name ==> ext == name
  {
    var parts := Split(name, '.');
    var ext := parts[|parts| - 1];
    assert '.' !in ext && EndsWith(name, ext)
      && ('.' in name ==> |ext| < |name| && name[|name| - |ext| - 1] == '.')
      && ('.' !in name ==> ext == name) by {
      SplitEnds(name, '.');
    }
    ext
  }

  /**
   * `name.split(".")[0]`: the text before the first dot of the name, or
   * the whole name when it has no dot.
   */
  function Stem(name: string): (stem: string)
    ensures '.' !in stem
    ensures StartsWith(name, stem)
    ensures '.' in name ==> |stem| < |name| && name[|stem|] == '.'
    ensures '.' !in name ==> stem == name
  {
    var parts := Split(name, '.');
    var stem := parts[0];
    assert '.' !in stem && StartsWith(name, stem)
      && ('.' in name ==> |stem| < |name| && name[|stem|] == '.')
      && ('.' !in name ==> stem == name) by {
      SplitEnds(name, '.');
    }
    stem
  }

  /**
   * The download name: the suggested name as it stands when it already
   * ends in `.` followed by the original extension, otherwise its stem
   * followed by `.` and that extension.
   */
  function DownloadName(originalName: string, suggestedName: string): (r: string)
    ensures EndsWith(r, "." + Extension(originalName))
    ensures EndsWith(suggestedName, "." + Extension(originalName)) ==> r == suggestedName
  {
    var ext := Extension(originalName);
    if EndsWith(suggestedName, "." + ext) then suggestedName
    else
      EndsWithAppend(Stem(suggestedName), "." + ext);
      Stem(suggestedName) + ("." + ext)
  }

  /**
   * What the download name looks like, stated without reference to how it
   * is computed: it always ends in `.ext`; a suggestion that already does
   * is kept verbatim; otherwise what precedes `.ext` is the longest
   * dot-free prefix of the suggestion.
   */
  lemma {:induction false} DownloadNameShape(originalName: string, suggestedName: string)
    ensures var ext := Extension(originalName);
      var r := DownloadName(originalName, suggestedName);
      && EndsWith(r, "." + ext)
      && (EndsWith(suggestedName, "." + ext) ==> r == suggestedName)
      && (!EndsWith(suggestedName, "." + ext) ==>
            var stem := r[..|r| - |ext| - 1];
            && '.' !in stem
            && StartsWith(suggestedName, stem)
            && (stem == suggestedName || suggestedName[|stem|] == '.'))
  {
    var ext := Extension(originalName);
    var r := DownloadName(originalName, suggestedName);
    if !EndsWith(suggestedName, "." + ext) {
      var stem := Stem(suggestedName);
      assert r == stem + ("." + ext);
      assert r[..|r| - |ext| - 1] == stem;
      assert r[|r| - |"." + ext|..] == "." + ext;
      if '.' in suggestedName {
        assert |stem| < |suggestedName| && suggestedName[|stem|] == '.';
      }
    }
  }

  /** Feeding the computed name back in as the suggestion changes nothing. */
  lemma {:induction false} DownloadNameIdempotent(originalName: string, suggestedName: string)
    ensures var r := DownloadName(originalName, suggestedName);
      DownloadName(originalName, r) == r
  {
    DownloadNameShape(originalName, suggestedName);
  }
}
