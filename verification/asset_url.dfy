/** `getAssetUrl`: where an image path stored by the backend is fetched from. */
module AssetUrl {
  import opened Wrappers
  import opened Strings

  /** The image shown when there is no path. */
  const NoImage := "/images/no-image-available-icon.png"

  /** The backend used when `NEXT_PUBLIC_ASSET_URL` is unset or empty. */
  const DefaultBackend := "http://localhost:8000"

  /** `process.env.NEXT_PUBLIC_ASSET_URL || "http://localhost:8000"` */
  function BackendUrl(configured: Option<string>): (r: string)
    ensures configured.Some? && configured.value != "" ==> r == configured.value
    ensures configured.None? || configured.value == "" ==> r == DefaultBackend
  {
    if configured.Some? && configured.value != "" then configured.value else DefaultBackend
  }

  /** `getAssetUrl(path)`, with the environment setting as a parameter. */
  function GetAssetUrl(path: Option<string>, configured: Option<string>): (r: string)
    ensures path.None? || path.value == "" ==> r == NoImage
    ensures path.Some? && StartsWith(path.value, "http") ==> r == path.value
    ensures path.Some? && path.value != "" && !StartsWith(path.value, "http") ==>
      r == BackendUrl(configured) + "/" + path.value
    ensures path.Some? && path.value != "" ==> |r| >= |path.value| && r[|r| - |path.value|..] == path.value
  {
    if path.None? || path.value == "" then NoImage
    else if StartsWith(path.value, "http") then path.value
    else BackendUrl(configured) + "/" + path.value
  }

  /** With an http(s) backend, a URL built from a path passes through a second call unchanged. */
  lemma GetAssetUrlIdempotent(path: string, configured: Option<string>)
    requires path != ""
    requires StartsWith(BackendUrl(configured), "http")
    ensures var once := GetAssetUrl(Some(path), configured);
            GetAssetUrl(Some(once), configured) == once
  {
    var once := GetAssetUrl(Some(path), configured);
    if !StartsWith(path, "http") {
      var b := BackendUrl(configured);
      assert once[..|b|] == b;
      assert once[..4] == b[..4];
    }
  }

  /** The built-in backend is an http URL, so the result with no setting is idempotent. */
  lemma DefaultBackendIsHttp()
    ensures StartsWith(DefaultBackend, "http")
  {
  }
}
