/**
 * The file-name side of the save/load dialogs in `src/input/saveload_dialog.rs`: a level saved
 * for dimension `d` gets the extension `"{d}d.ron"`, a loaded file's dimension is read back from
 * that extension, and a successful load records the file in the scene configuration.
 */
module SaveLoad {
  import opened Wrappers

  /** `ValidDimension`: the two dimensions a level can have. */
  datatype ValidDimension = Three | Four

  function DimensionValue(d: ValidDimension): nat {
    if d == Three then 3 else 4
  }

  /** `LevelConfig`: which level the scene starts with. */
  datatype LevelConfig = Level1 | Test1 | Test2 | Test3 | Load | Empty

  datatype Level1Config = Level1Config(openCenter: bool)

  /** `LoadLevelConfig`: the file a loaded level comes from. */
  datatype LoadLevelConfig = LoadLevelConfig(path: string)

  /** `SceneConfig`: the scene part of the configuration. */
  datatype SceneConfig = SceneConfig(
    grid: bool, sky: bool, horizon: bool, stars: bool,
    level: LevelConfig,
    level1: Option<Level1Config>,
    load3d: Option<LoadLevelConfig>,
    load4d: Option<LoadLevelConfig>)

  /** `Config`, reduced to the scene part, the only part this module changes. */
  class Config {
    var scene: SceneConfig

    constructor (scene: SceneConfig)
      ensures this.scene == scene
    {
      this.scene := scene;
    }
  }

  /** The decimal digits of `n`, as `format!("{}", n)` writes them. */
  function Decimal(n: nat): (r: string)
    ensures |r| > 0 && forall i :: 0 <= i < |r| ==> '0' <= r[i] <= '9'
  {
    var digit := ['0' + (n % 10) as char];
    if n < 10 then digit else Decimal(n / 10) + digit
  }

  /** `str::ends_with`. */
  predicate EndsWith(s: string, suffix: string) {
    |suffix| <= |s| && s[|s| - |suffix|..] == suffix
  }

  /** `save_file_extension`: the dimension's digits followed by `d.ron`. */
  function SaveFileExtension(dim: nat): (r: string)
    ensures EndsWith(r, "d.ron") && |r| > |"d.ron"|
    ensures dim < 10 ==> r == ['0' + dim as char] + "d.ron"
  {
    Decimal(dim) + "d.ron"
  }

  /**
   * `get_file_dimension`: the dimension whose extension ends the path, 3 tried first; `None`
   * stands for a path that is not valid Unicode, which `unwrap_or_default` turns into "".
   */
  function GetFileDimension(path: Option<string>): (r: Result<ValidDimension, string>)
    ensures r.Ok? ==> path.Some? && EndsWith(path.value, SaveFileExtension(DimensionValue(r.value)))
    ensures r == Ok(Four) ==> !EndsWith(path.value, SaveFileExtension(3))
    ensures r.Err? <==> path.None? || (!EndsWith(path.value, SaveFileExtension(3)) && !EndsWith(path.value, SaveFileExtension(4)))
    ensures r.Err? ==> r.error == "Invalid file name " + (if path.Some? then path.value else "") + "."
  {
    var s := if path.Some? then path.value else "";
    if EndsWith(s, SaveFileExtension(3)) then Ok(Three)
    else if EndsWith(s, SaveFileExtension(4)) then Ok(Four)
    else Err("Invalid file name " + s + ".")
  }

  /** A name built by appending `ext` ends with `ext`. */
  lemma EndsWithAppended(p: string, ext: string)
    ensures EndsWith(p + ext, ext)
  {
    assert (p + ext)[|p + ext| - |ext|..] == ext;
  }

  /** Round trip: a file named with the extension of a valid dimension is read back as that dimension. */
  lemma DimensionRoundTrip(prefix: string, d: ValidDimension)
    ensures GetFileDimension(Some(prefix + SaveFileExtension(DimensionValue(d)))) == Ok(d)
  {
    var s := prefix + SaveFileExtension(DimensionValue(d));
    EndsWithAppended(prefix, SaveFileExtension(DimensionValue(d)));
    if d == Four {
      assert s[|s| - 6] == '4';
      assert !EndsWith(s, SaveFileExtension(3)) by {
        assert SaveFileExtension(3)[0] == '3';
      }
    }
  }

  /** The extension of any other dimension below 10 is not recognised. */
  lemma OtherDimensionRejected(prefix: string, dim: nat)
    requires dim < 10 && dim != 3 && dim != 4
    ensures GetFileDimension(Some(prefix + SaveFileExtension(dim))).Err?
  {
    var s := prefix + SaveFileExtension(dim);
    assert s[|s| - 6] == '0' + dim as char;
    assert SaveFileExtension(3)[0] == '3' && SaveFileExtension(4)[0] == '4';
  }

  /** The configured scene after a load of `path` in dimension `d`. */
  function LoadedScene(scene: SceneConfig, d: ValidDimension, path: string): (r: SceneConfig)
    ensures r.level == Load
    ensures r.load3d == (if d.Three? then Some(LoadLevelConfig(path)) else scene.load3d)
    ensures r.load4d == (if d.Four? then Some(LoadLevelConfig(path)) else scene.load4d)
    ensures r.(level := scene.level, load3d := scene.load3d, load4d := scene.load4d) == scene
  {
    var cfg := Some(LoadLevelConfig(path));
    var s := if d.Three? then scene.(load3d := cfg) else scene.(load4d := cfg);
    s.(level := Load)
  }

  /**
   * `set_load_file_in_config`: read the dimension from the file name; on failure return the
   * error with the configuration untouched, otherwise record the path for that dimension and
   * select the loaded level. The second failure of the source, a path that is not Unicode, is
   * already an error of `get_file_dimension`.
   */
  method SetLoadFileInConfig(config: Config, file: Option<string>) returns (r: Result<ValidDimension, string>)
    modifies config
    ensures r == GetFileDimension(file)
    ensures r.Err? ==> config.scene == old(config.scene)
    ensures r.Ok? ==> config.scene == LoadedScene(old(config.scene), r.value, file.value)
  {
    var d := GetFileDimension(file);
    if d.Err? {
      return Err(d.error);
    }
    // The source's second error, "Could not parse file name.", cannot occur here.
    assert file.Some?;
    var s := file.value;
    var levelCfg := Some(LoadLevelConfig(s));
    match d.value {
      case Three =>
        config.scene := config.scene.(load3d := levelCfg);
      case Four =>
        config.scene := config.scene.(load4d := levelCfg);
    }
    config.scene := config.scene.(level := Load);
    r := Ok(d.value);
  }
}
