/**
 * Choosing the native `bleep` release asset for the running platform: the
 * platform detection, the asset URL, the archive format and the name of the
 * executable inside the archive.
 */
module Downloader {
  import opened KotlinStd

  datatype Os = LINUX | MACOS | WINDOWS
  datatype Arch = AMD64 | ARM64
  datatype OsArch = OsArch(os: Os, arch: Arch)

  // ---------------------------------------------------------------------------
  // detectOsArch
  // ---------------------------------------------------------------------------

  /** The arch names that are recognised, after lowercasing. */
  predicate KnownArch(a: string) {
    a == "x86_64" || a == "amd64" || a == "aarch64"
  }

  /**
   * `detectOsArch`, given the `os.name` and `os.arch` system properties.
   * Both are lowercased first; "windows" is tested before "linux", and
   * "linux" before "mac"; the OS is checked before the arch.
   */
  function DetectOsArch(osProperty: string, archProperty: string): (r: Result<OsArch>)
    ensures var o, a := LowerAscii(osProperty), LowerAscii(archProperty);
      var osKnown := Contains(o, "windows") || Contains(o, "linux") || Contains(o, "mac");
      && (r.Ok? <==> osKnown && KnownArch(a))
      && (!osKnown ==> r == Failure("Unsupported OS: " + o))
      && (osKnown && !KnownArch(a) ==> r == Failure("Unsupported architecture: " + a))
      && (r.Ok? ==>
        && (r.value.os == WINDOWS <==> Contains(o, "windows"))
        && (r.value.os == LINUX <==> !Contains(o, "windows") && Contains(o, "linux"))
        && (r.value.os == MACOS <==> !Contains(o, "windows") && !Contains(o, "linux"))
        && (r.value.arch == ARM64 <==> a == "aarch64"))
  {
    var osName := LowerAscii(osProperty);
    var archName := LowerAscii(archProperty);
    if Contains(osName, "windows") || Contains(osName, "linux") || Contains(osName, "mac") then
      var os := if Contains(osName, "windows") then WINDOWS
                else if Contains(osName, "linux") then LINUX
                else MACOS;
      if archName == "x86_64" || archName == "amd64" then Ok(OsArch(os, AMD64))
      else if archName == "aarch64" then Ok(OsArch(os, ARM64))
      else Failure("Unsupported architecture: " + archName)
    else
      Failure("Unsupported OS: " + osName)
  }

  /** An os name mentioning both "windows" and "linux" is Windows. */
  lemma WindowsWins(osProperty: string, archProperty: string)
    requires Contains(LowerAscii(osProperty), "windows")
    requires KnownArch(LowerAscii(archProperty))
    ensures DetectOsArch(osProperty, archProperty).Ok?
    ensures DetectOsArch(osProperty, archProperty).value.os == WINDOWS
  {
  }

  // ---------------------------------------------------------------------------
  // getBleepDownloadUrl
  // ---------------------------------------------------------------------------

  function BaseUrl(version: string): string {
    "https://github.com/oyvindberg/bleep/releases/download/v" + version
  }

  function OsName(os: Os): string {
    match os
    case LINUX => "LINUX"
    case MACOS => "MACOS"
    case WINDOWS => "WINDOWS"
  }

  function ArchName(arch: Arch): string {
    match arch
    case AMD64 => "AMD64"
    case ARM64 => "ARM64"
  }

  /** The data-class `toString` of an `OsArch`. */
  function OsArchToString(oa: OsArch): string {
    "OsArch(os=" + OsName(oa.os) + ", arch=" + ArchName(oa.arch) + ")"
  }

  /** The platforms a native image is published for. */
  predicate Supported(oa: OsArch) {
    oa.os == MACOS || oa.arch == AMD64
  }

  /** The archive suffix of the published asset: a zip on Windows, a gzipped tar elsewhere. */
  function AssetSuffix(os: Os): string {
    if os == WINDOWS then ".zip" else ".tar.gz"
  }

  /** The target triple in the asset name. */
  function Platform(oa: OsArch): string
    requires Supported(oa)
  {
    match oa
    case OsArch(MACOS, ARM64) => "arm64-apple-darwin"
    case OsArch(MACOS, AMD64) => "x86_64-apple-darwin"
    case OsArch(LINUX, AMD64) => "x86_64-pc-linux"
    case OsArch(WINDOWS, AMD64) => "x86_64-pc-win32"
  }

  /** The common head of every asset URL of a release. */
  function AssetPrefix(version: string): string {
    BaseUrl(version) + "/bleep-"
  }

  /** `<platform>.tar.gz`, or `<platform>.zip` on Windows: the asset name after `bleep-`. */
  function AssetTail(oa: OsArch): string
    requires Supported(oa)
  {
    Platform(oa) + AssetSuffix(oa.os)
  }

  /** `getBleepDownloadUrl`. */
  function DownloadUrl(version: string, oa: OsArch): (r: Result<string>)
    ensures r.Ok? <==> Supported(oa)
    ensures r.Ok? ==> StartsWith(r.value, AssetPrefix(version))
    ensures r.Failure? ==> r.message == "No native image available for " + OsArchToString(oa)
  {
    if Supported(oa) then
      PrefixOfConcat(AssetPrefix(version), AssetTail(oa));
      Ok(AssetPrefix(version) + AssetTail(oa))
    else
      Failure("No native image available for " + OsArchToString(oa))
  }

  /** The four published assets, each under the release's download directory. */
  lemma PublishedAssets(version: string)
    ensures DownloadUrl(version, OsArch(MACOS, ARM64)) == Ok(BaseUrl(version) + "/bleep-arm64-apple-darwin.tar.gz")
    ensures DownloadUrl(version, OsArch(MACOS, AMD64)) == Ok(BaseUrl(version) + "/bleep-x86_64-apple-darwin.tar.gz")
    ensures DownloadUrl(version, OsArch(LINUX, AMD64)) == Ok(BaseUrl(version) + "/bleep-x86_64-pc-linux.tar.gz")
    ensures DownloadUrl(version, OsArch(WINDOWS, AMD64)) == Ok(BaseUrl(version) + "/bleep-x86_64-pc-win32.zip")
  {
    MacArmAsset(version);
    MacAmdAsset(version);
    LinuxAsset(version);
    WindowsAsset(version);
  }

  lemma MacArmAsset(version: string)
    ensures DownloadUrl(version, OsArch(MACOS, ARM64)) == Ok(BaseUrl(version) + "/bleep-arm64-apple-darwin.tar.gz")
  {
    AssetName(OsArch(MACOS, ARM64), "arm64-apple-darwin", ".tar.gz", "/bleep-arm64-apple-darwin.tar.gz");
    AssetUrl(version, OsArch(MACOS, ARM64), "/bleep-arm64-apple-darwin.tar.gz");
  }

  lemma MacAmdAsset(version: string)
    ensures DownloadUrl(version, OsArch(MACOS, AMD64)) == Ok(BaseUrl(version) + "/bleep-x86_64-apple-darwin.tar.gz")
  {
    AssetName(OsArch(MACOS, AMD64), "x86_64-apple-darwin", ".tar.gz", "/bleep-x86_64-apple-darwin.tar.gz");
    AssetUrl(version, OsArch(MACOS, AMD64), "/bleep-x86_64-apple-darwin.tar.gz");
  }

  lemma LinuxAsset(version: string)
    ensures DownloadUrl(version, OsArch(LINUX, AMD64)) == Ok(BaseUrl(version) + "/bleep-x86_64-pc-linux.tar.gz")
  {
    AssetName(OsArch(LINUX, AMD64), "x86_64-pc-linux", ".tar.gz", "/bleep-x86_64-pc-linux.tar.gz");
    AssetUrl(version, OsArch(LINUX, AMD64), "/bleep-x86_64-pc-linux.tar.gz");
  }

  lemma WindowsAsset(version: string)
    ensures DownloadUrl(version, OsArch(WINDOWS, AMD64)) == Ok(BaseUrl(version) + "/bleep-x86_64-pc-win32.zip")
  {
    AssetName(OsArch(WINDOWS, AMD64), "x86_64-pc-win32", ".zip", "/bleep-x86_64-pc-win32.zip");
    AssetUrl(version, OsArch(WINDOWS, AMD64), "/bleep-x86_64-pc-win32.zip");
  }

  lemma AssetName(oa: OsArch, platform: string, suffix: string, asset: string)
    requires Supported(oa) && Platform(oa) == platform && AssetSuffix(oa.os) == suffix
    requires asset == "/bleep-" + (platform + suffix)
    ensures asset == "/bleep-" + AssetTail(oa)
  {
  }

  lemma AssetUrl(version: string, oa: OsArch, asset: string)
    requires Supported(oa)
    requires asset == "/bleep-" + AssetTail(oa)
    ensures DownloadUrl(version, oa) == Ok(BaseUrl(version) + asset)
  {
    var b := BaseUrl(version);
    var t := AssetTail(oa);
    assert (b + "/bleep-") + t == b + ("/bleep-" + t);
  }

  /** Linux and Windows on ARM64 have no native image; every other pair has one. */
  lemma NoArmImageForLinuxOrWindows(version: string, oa: OsArch)
    ensures DownloadUrl(version, oa).Failure? <==>
      oa == OsArch(LINUX, ARM64) || oa == OsArch(WINDOWS, ARM64)
  {
  }

  // ---------------------------------------------------------------------------
  // getExtension and extractBleep
  // ---------------------------------------------------------------------------

  /** `getExtension`: ".tar.gz" is tested before ".gz". */
  function Extension(url: string): (r: string)
    ensures r in {".tar.gz", ".zip", ".gz", ""}
    ensures r != "" ==> EndsWith(url, r)
    ensures EndsWith(url, ".tar.gz") ==> r == ".tar.gz"
    ensures r == "" <==> !EndsWith(url, ".tar.gz") && !EndsWith(url, ".zip") && !EndsWith(url, ".gz")
  {
    if EndsWith(url, ".tar.gz") then ".tar.gz"
    else if EndsWith(url, ".zip") then ".zip"
    else if EndsWith(url, ".gz") then ".gz"
    else ""
  }

  datatype ArchiveFormat = TarGz | Zip | Gz

  /** Which extractor `extractBleep` picks, with the same suffix order. */
  function ExtractorFor(url: string): (r: Result<ArchiveFormat>)
    ensures r.Failure? <==> Extension(url) == ""
    ensures r.Failure? ==> r.message == "Unknown archive format: " + url
  {
    if EndsWith(url, ".tar.gz") then Ok(TarGz)
    else if EndsWith(url, ".zip") then Ok(Zip)
    else if EndsWith(url, ".gz") then Ok(Gz)
    else Failure("Unknown archive format: " + url)
  }

  function FormatExtension(f: ArchiveFormat): string {
    match f
    case TarGz => ".tar.gz"
    case Zip => ".zip"
    case Gz => ".gz"
  }

  /** The extractor always matches the extension the archive was saved under. */
  lemma ExtractorAgreesWithExtension(url: string)
    ensures ExtractorFor(url).Ok? ==> FormatExtension(ExtractorFor(url).value) == Extension(url)
  {
  }

  /**
   * Every published asset URL is a ".tar.gz" (macOS, Linux) or a ".zip"
   * (Windows), so it is always extracted and never rejected.
   */
  lemma DownloadUrlExtension(version: string, oa: OsArch)
    requires Supported(oa)
    ensures Extension(DownloadUrl(version, oa).value) == (if oa.os == WINDOWS then ".zip" else ".tar.gz")
    ensures ExtractorFor(DownloadUrl(version, oa).value) == Ok(if oa.os == WINDOWS then Zip else TarGz)
  {
    var url := DownloadUrl(version, oa).value;
    var stem := AssetPrefix(version) + Platform(oa);
    assert url == stem + AssetSuffix(oa.os);
    SuffixCarries(stem, AssetSuffix(oa.os), AssetSuffix(oa.os));
    if oa.os == WINDOWS {
      assert url[|url| - 1] == 'p';
    }
  }

  /** Whether a string ends with `x` depends only on its last `|x|` characters. */
  lemma SuffixCarries(prefix: string, a: string, x: string)
    requires |x| <= |a|
    ensures EndsWith(prefix + a, x) <==> EndsWith(a, x)
  {
    var s := prefix + a;
    assert s[|s| - |x|..] == a[|a| - |x|..];
  }

  // ---------------------------------------------------------------------------
  // The executable inside the archive
  // ---------------------------------------------------------------------------

  function ExecutableName(os: Os): (r: string)
    ensures r == "bleep.exe" <==> os == WINDOWS
    ensures r == "bleep" <==> os != WINDOWS
  {
    if os == WINDOWS then "bleep.exe" else "bleep"
  }
}
