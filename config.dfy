/**
 * The video settings of src/utils/config.py. The directory paths there are resolved
 * from the installation directory at run time, so the modules that build file names
 * take the directory they write to as a parameter.
 */
module Config {
  /** Frame width in pixels. */
  const VideoWidth: int := 1080

  /** Frame height in pixels. */
  const VideoHeight: int := 1920

  /** Output frame rate. */
  const Fps: int := 24

  /** Whether background music is mixed in at all, before the user interface sets it. */
  const EnableBgm: bool := true

  /** The gain applied to the background music, before the user interface sets it. */
  const BgmVolume: real := 0.3
}
