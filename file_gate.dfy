/** The upload gate of resume_lens/api.py: only files whose extension is one of
    pdf, doc or docx (in any letter case) take part in a matching run. */
module FileGate {
  import opened Basics

  /** ALLOWED_EXTENSIONS. */
  const AllowedExtensions: set<string> := {"pdf", "doc", "docx"}

  /** The text after the last '.', i.e. `filename.rsplit('.', 1)[1]`, or None
      when the name has no '.' at all. */
  function Extension(f: string): (r: Option<string>)
    ensures r.None? <==> '.' !in f
    ensures r.Some? ==> |r.value| < |f| && '.' !in r.value
    ensures r.Some? ==> f[|f| - |r.value| - 1] == '.' && f[|f| - |r.value|..] == r.value
  {
    if f == [] then None
    else if f[|f| - 1] == '.' then Some([])
    else
      match Extension(f[..|f| - 1])
      case None => None
      case Some(e) => Some(e + [f[|f| - 1]])
  }

  /** `allowed_file`. */
  predicate AllowedFile(f: string)
  {
    var e := Extension(f);
    e.Some? && Lower(e.value) in AllowedExtensions
  }

  /** The gate accepts a name exactly when it has a '.' and the lower-cased
      text after the LAST '.' is an allowed extension. */
  lemma AllowedFileMeaning(f: string)
    ensures AllowedFile(f) <==>
      exists i :: 0 <= i < |f| && f[i] == '.' && '.' !in f[i + 1..] && Lower(f[i + 1..]) in AllowedExtensions
  {
    var e := Extension(f);
    if AllowedFile(f) {
      var i := |f| - |e.value| - 1;
      assert f[i + 1..] == e.value;
    }
    if exists i :: 0 <= i < |f| && f[i] == '.' && '.' !in f[i + 1..] && Lower(f[i + 1..]) in AllowedExtensions {
      var i :| 0 <= i < |f| && f[i] == '.' && '.' !in f[i + 1..] && Lower(f[i + 1..]) in AllowedExtensions;
      assert e.Some?;
      assert f[i + 1..] == e.value;
    }
  }
}
