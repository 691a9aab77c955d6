/** Size limits of tools/release_check.py, shared by the archive and the Git side of a release. */
module SdistLimits {

  const MAX_SDIST_BYTES := 5 * 1024 * 1024
  const MAX_SDIST_MEMBERS := 2000
  const MAX_SDIST_MEMBER_BYTES := 5 * 1024 * 1024
  const MAX_SDIST_UNCOMPRESSED_BYTES := 25 * 1024 * 1024
  const MAX_SDIST_TAR_STREAM_BYTES := 32 * 1024 * 1024
}
