/** The configuration options.c parses from the command line. */
module Options {
  import opened CStrings

  /** The port announced when -p is not given. */
  const GOPHER_PORT: string := "70"

  /** `struct opt_options`: the document root (realpath of -r, or of the
      working directory), the host to announce (-H, or gethostname) and the
      port to announce (-p, or GOPHER_PORT). */
  datatype Config = Config(root: string, host: string, port: string)

  /** What opt_parse guarantees: three C strings, the root a resolved path
      that fits a PATH_MAX buffer. */
  predicate ValidConfig(cfg: Config) {
    NoNul(cfg.root) && NoNul(cfg.host) && NoNul(cfg.port) && |cfg.root| < PATH_MAX
  }
}
