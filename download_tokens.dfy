/** The token map behind the secure download and view links of
    resume_lens/api.py: `resolve_file_path`, `generate_download_token` and the
    two URL builders that combine them.

    The random token `secrets.token_urlsafe(16)` is a parameter. The site's
    private and public file directories are parameters too. */
module DownloadTokens {
  import opened Basics

  datatype FileType = Private | Public

  /** What `resolve_file_path` returns: (file_type, file_path, filename). */
  datatype ResolvedFile = ResolvedFile(fileType: FileType, filePath: string, filename: string)

  /** A resume URL under this prefix is a private file. */
  const PrivatePrefix: string := "/private/files/"

  const DownloadEndpoint: string := "/api/method/resume_lens.api.download_matched_resume?token="
  const ViewEndpoint: string := "/api/method/resume_lens.api.view_matched_resume?token="

  /** `os.path.basename`: the text after the last '/'. */
  function Basename(p: string): (r: string)
    ensures '/' !in r
    ensures |r| <= |p| && p[|p| - |r|..] == r
    ensures |r| < |p| ==> p[|p| - |r| - 1] == '/'
  {
    if p == [] then []
    else if p[|p| - 1] == '/' then []
    else Basename(p[..|p| - 1]) + [p[|p| - 1]]
  }

  /** `os.path.join(dir, name)` for two components. */
  function JoinPath(dir: string, name: string): string
  {
    if StartsWith(name, "/") then name
    else if dir == [] || dir[|dir| - 1] == '/' then dir + name
    else dir + "/" + name
  }

  /** `resolve_file_path`. */
  function ResolveFilePath(resumeUrl: string, privateDir: string, publicDir: string): (r: ResolvedFile)
    ensures r.fileType == Private <==> StartsWith(resumeUrl, PrivatePrefix)
    ensures '/' !in r.filename
    ensures |r.filename| <= |resumeUrl| && resumeUrl[|resumeUrl| - |r.filename|..] == r.filename
    ensures |r.filename| < |resumeUrl| ==> resumeUrl[|resumeUrl| - |r.filename| - 1] == '/'
  {
    var filename := Basename(resumeUrl);
    if StartsWith(resumeUrl, PrivatePrefix) then ResolvedFile(Private, JoinPath(privateDir, filename), filename)
    else ResolvedFile(Public, JoinPath(publicDir, filename), filename)
  }

  /** Joining a name that holds no '/' never discards the directory. */
  lemma JoinPlainName(dir: string, name: string)
    requires '/' !in name
    ensures JoinPath(dir, name) == if dir != [] && dir[|dir| - 1] != '/' then dir + "/" + name else dir + name
  {
    if name != [] {
      assert name[0] in name;
    }
  }

  /** The resolved path joins the directory of the file's type and the
      filename as `os.path.join` does: a '/' goes in between exactly when the
      directory is non-empty and does not already end in '/'. So with a
      non-empty directory the path is the directory, then '/', then a name
      without '/'. */
  lemma ResolvedPathJoinsDirectoryAndFilename(resumeUrl: string, privateDir: string, publicDir: string)
    ensures var r := ResolveFilePath(resumeUrl, privateDir, publicDir);
      var dir := if r.fileType == Private then privateDir else publicDir;
      r.filePath == (if dir != [] && dir[|dir| - 1] != '/' then dir + "/" + r.filename else dir + r.filename)
  {
    var name := Basename(resumeUrl);
    if StartsWith(resumeUrl, PrivatePrefix) {
      JoinPlainName(privateDir, name);
    } else {
      JoinPlainName(publicDir, name);
    }
  }

  /** `TOKEN_MAP`: the process-wide map from issued tokens to file paths. */
  class TokenStore {
    var tokens: map<string, string>

    constructor ()
      ensures tokens == map[]
    {
      tokens := map[];
    }

    /** `TOKEN_MAP.get(token)`. */
    function Lookup(token: string): (r: Option<string>)
      reads this
      ensures r.Some? <==> token in tokens
      ensures r.Some? ==> r.value == tokens[token]
    {
      if token in tokens then Some(tokens[token]) else None
    }

    /** `generate_download_token`: records the path under the fresh token and
        returns the token. An existing entry under the same token is
        overwritten; nothing else changes. */
    method GenerateDownloadToken(filepath: string, token: string) returns (t: string)
      modifies this
      ensures t == token
      ensures tokens == old(tokens)[token := filepath]
      ensures Lookup(token) == Some(filepath)
      ensures forall k :: k != token ==> Lookup(k) == old(Lookup(k))
    {
      tokens := tokens[token := filepath];
      t := token;
    }

    /** `get_secure_download_url`: resolves the URL, issues a token for the
        resolved path and returns the download link. */
    method SecureDownloadUrl(resumeUrl: string, privateDir: string, publicDir: string, token: string)
      returns (url: string)
      modifies this
      ensures url == DownloadEndpoint + token
      ensures tokens == old(tokens)[token := ResolveFilePath(resumeUrl, privateDir, publicDir).filePath]
      ensures Lookup(token) == Some(ResolveFilePath(resumeUrl, privateDir, publicDir).filePath)
    {
      var resolved := ResolveFilePath(resumeUrl, privateDir, publicDir);
      var t := GenerateDownloadToken(resolved.filePath, token);
      url := DownloadEndpoint + t;
    }

    /** `get_secure_view_url`: as SecureDownloadUrl, with the view endpoint. */
    method SecureViewUrl(resumeUrl: string, privateDir: string, publicDir: string, token: string)
      returns (url: string)
      modifies this
      ensures url == ViewEndpoint + token
      ensures tokens == old(tokens)[token := ResolveFilePath(resumeUrl, privateDir, publicDir).filePath]
      ensures Lookup(token) == Some(ResolveFilePath(resumeUrl, privateDir, publicDir).filePath)
    {
      var resolved := ResolveFilePath(resumeUrl, privateDir, publicDir);
      var t := GenerateDownloadToken(resolved.filePath, token);
      url := ViewEndpoint + t;
    }
  }
}
