/**
 * The client's URL builder. The deployment's API base URL (empty in
 * development, where relative paths go through the dev-server proxy) is a
 * parameter rather than something read from the build environment.
 */
module Config {

  predicate StartsWithSlash(s: string) {
    |s| > 0 && s[0] == '/'
  }

  predicate EndsWithSlash(s: string) {
    |s| > 0 && s[|s| - 1] == '/'
  }

  /** `path.startsWith('/') ? path.slice(1) : path`. */
  function DropLeadingSlash(path: string): (p: string)
    ensures StartsWithSlash(path) ==> "/" + p == path
    ensures !StartsWithSlash(path) ==> p == path
  {
    if StartsWithSlash(path) then path[1..] else path
  }

  /** `base.replace(/\/$/, '')`: without the multiline flag `$` matches only
      at the very end, so at most one final slash goes. */
  function DropTrailingSlash(base: string): (b: string)
    ensures EndsWithSlash(base) ==> b + "/" == base
    ensures !EndsWithSlash(base) ==> b == base
  {
    if EndsWithSlash(base) then base[..|base| - 1] else base
  }

  /** `getApiUrl(path)` for the API base URL `base`. */
  function GetApiUrl(base: string, path: string): (url: string)
    ensures base == "" ==> url == path
    ensures base != "" ==> |url| == |DropTrailingSlash(base)| + 1 + |DropLeadingSlash(path)|
  {
    if base != "" then DropTrailingSlash(base) + "/" + DropLeadingSlash(path) else path
  }

  /** With a base, the URL is `b + "/" + p` for the base `b` less its one
      trailing slash (if it has one) and the path `p` less its one leading
      slash (if it has one): a slash is removed exactly where there was one. */
  lemma JoinShape(base: string, path: string, b: string, p: string)
    requires base != ""
    requires if EndsWithSlash(base) then b + "/" == base else b == base
    requires if StartsWithSlash(path) then "/" + p == path else p == path
    ensures GetApiUrl(base, path) == b + "/" + p
  {
    if EndsWithSlash(base) {
      assert b == base[..|base| - 1];
    }
    if StartsWithSlash(path) {
      assert p == path[1..];
    }
  }

  /** With a base, a path with and without its single leading slash give the same URL. */
  lemma LeadingSlashIrrelevant(base: string, p: string)
    requires base != "" && !StartsWithSlash(p)
    ensures GetApiUrl(base, "/" + p) == GetApiUrl(base, p)
  {
    assert ("/" + p)[1..] == p;
  }

  /** When neither side doubles its slash, the URL has exactly one slash at the joint:
      the base part does not end with one and the path part does not start with one. */
  lemma SingleSeparator(base: string, path: string)
    requires base != ""
    requires !(|base| >= 2 && base[|base| - 2..] == "//")
    requires !(|path| >= 2 && path[..2] == "//")
    ensures var b, p := DropTrailingSlash(base), DropLeadingSlash(path);
      GetApiUrl(base, path) == b + "/" + p && !EndsWithSlash(b) && !StartsWithSlash(p)
  {
    if |base| >= 2 {
      assert base[|base| - 2..] == [base[|base| - 2], base[|base| - 1]];
    }
    if |path| >= 2 {
      assert path[..2] == [path[0], path[1]];
    }
  }

  /** Only one slash is stripped on each side: `//x` keeps a leading slash
      and a base ending in `//` keeps a trailing one. */
  lemma OnlyOneSlashStripped(base: string, x: string)
    requires base != ""
    ensures GetApiUrl(base, "//" + x) == DropTrailingSlash(base) + "/" + "/" + x
    ensures GetApiUrl(base + "//", x) == base + "/" + "/" + DropLeadingSlash(x)
  {
    assert ("//" + x)[1..] == "/" + x;
    assert (base + "//")[..|base + "//"| - 1] == base + "/";
  }
}
