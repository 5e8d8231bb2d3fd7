/** The option records filled in by the command-line flags and the two
    `newSystemContext` builders that merge global, shared, per-image and
    per-destination options into one image-library configuration record. */
module SystemContexts {
  import opened Wrappers
  import Credentials

  /** The global options this code reads (`globalOptions` is declared elsewhere
      in the command). `tlsVerify` is the deprecated global `--tls-verify`. */
  datatype GlobalOptions = GlobalOptions(
    registriesDirPath: string,
    overrideArch: string,
    overrideOS: string,
    registriesConfPath: string,
    tlsVerify: Option<bool>)

  /** `sharedImageOptions`: options common to every image of one invocation. */
  datatype SharedImageOptions = SharedImageOptions(authFilePath: string)

  /** `dockerImageOptions`: per-image options of the registry transport. The
      tri-state command-line values (`optionalString`, `optionalBool`) are
      `Option`s: `None` when the flag was not given. */
  datatype DockerImageOptions = DockerImageOptions(
    global: GlobalOptions,
    shared: SharedImageOptions,
    authFilePath: Option<string>,
    credsOption: Option<string>,
    dockerCertPath: string,
    tlsVerify: Option<bool>,
    noCreds: bool)

  /** `imageOptions`: the registry-transport options plus two more paths. */
  datatype ImageOptions = ImageOptions(
    docker: DockerImageOptions,
    sharedBlobDir: string,
    dockerDaemonHost: string)

  /** `imageDestOptions`: image options plus those only a destination has. */
  datatype ImageDestOptions = ImageDestOptions(
    image: ImageOptions,
    dirForceCompression: bool,
    ociAcceptUncompressedLayers: bool,
    compressionFormat: string,
    compressionLevel: Option<int>)

  /** A compression algorithm as the image library's registry returns it. */
  datatype Algorithm = Algorithm(name: string)

  /** The fields of the image library's `types.SystemContext` that this code
      sets. `dockerInsecureSkipTLSVerify` is a `types.OptionalBool`, whose
      undefined state is `None`; pointer fields are `Option`s, nil being `None`. */
  datatype SystemContext = SystemContext(
    registriesDirPath: string,
    architectureChoice: string,
    osChoice: string,
    dockerCertPath: string,
    ociSharedBlobDirPath: string,
    authFilePath: string,
    dockerDaemonHost: string,
    dockerDaemonCertPath: string,
    systemRegistriesConfPath: string,
    dockerDaemonInsecureSkipTLSVerify: bool,
    dockerInsecureSkipTLSVerify: Option<bool>,
    dockerAuthConfig: Option<Credentials.DockerAuthConfig>,
    dirForceCompress: bool,
    ociAcceptUncompressedLayers: bool,
    compressionFormat: Option<Algorithm>,
    compressionLevel: Option<int>)

  /** A `types.SystemContext{}` with every field at its zero value. */
  const ZeroContext := SystemContext("", "", "", "", "", "", "", "", "", false, None, None, false, false, None, None)

  datatype ContextError =
    | CredsConflict                           // "creds and no-creds cannot be specified at the same time"
    | InvalidCreds(cause: Credentials.CredsError)
    | UnknownCompressionFormat(format: string) // the compression registry does not know the name

  /** The image options cannot be turned into a context: credentials were given
      together with --no-creds, or they do not parse. */
  predicate CredsRejected(opts: ImageOptions) {
    var d := opts.docker;
    d.credsOption.Some? && (d.noCreds || Credentials.GetDockerAuth(d.credsOption.value).Failure?)
  }

  /** The error the image builder reports when `CredsRejected(opts)`: the
      conflict is checked before the credentials are parsed. */
  function CredsRejection(opts: ImageOptions): ContextError
    requires CredsRejected(opts)
  {
    var d := opts.docker;
    if d.noCreds then CredsConflict else InvalidCreds(Credentials.GetDockerAuth(d.credsOption.value).error)
  }

  /** `ctx` is the configuration the image options describe: */
  predicate IsImageContext(ctx: SystemContext, opts: ImageOptions) {
    var d := opts.docker;
    var g := d.global;
    !CredsRejected(opts) &&
    // paths, daemon host and platform overrides are copied unchanged
    ctx.registriesDirPath == g.registriesDirPath &&
    ctx.architectureChoice == g.overrideArch &&
    ctx.osChoice == g.overrideOS &&
    ctx.systemRegistriesConfPath == g.registriesConfPath &&
    ctx.dockerCertPath == d.dockerCertPath &&
    ctx.dockerDaemonCertPath == d.dockerCertPath &&
    ctx.ociSharedBlobDirPath == opts.sharedBlobDir &&
    ctx.dockerDaemonHost == opts.dockerDaemonHost &&
    // a per-image auth file overrides the shared one
    ctx.authFilePath == (if d.authFilePath.Some? then d.authFilePath.value else d.shared.authFilePath) &&
    // the daemon skips TLS verification only when per-image --tls-verify=false
    ctx.dockerDaemonInsecureSkipTLSVerify == (d.tlsVerify.Some? && !d.tlsVerify.value) &&
    // the registry flag: per-image --tls-verify first, then the deprecated global one
    ctx.dockerInsecureSkipTLSVerify ==
      (if d.tlsVerify.Some? then Some(!d.tlsVerify.value)
       else if g.tlsVerify.Some? then Some(!g.tlsVerify.value)
       else None) &&
    // --no-creds means an explicit anonymous record, --creds the parsed pair
    ctx.dockerAuthConfig ==
      (if d.noCreds then Some(Credentials.AnonymousAuth)
       else if d.credsOption.Some? then Some(Credentials.GetDockerAuth(d.credsOption.value).value)
       else None)
  }

  /** No destination-only field is set. */
  predicate NoDestinationFields(ctx: SystemContext) {
    !ctx.dirForceCompress && !ctx.ociAcceptUncompressedLayers &&
    ctx.compressionFormat == None && ctx.compressionLevel == None
  }

  /** `imageOptions.newSystemContext`: a fresh context built from the options,
      or the credentials error, in which case no context is produced. */
  method NewSystemContext(opts: ImageOptions) returns (r: Result<SystemContext, ContextError>)
    ensures r.Failure? <==> CredsRejected(opts)
    ensures r.Failure? ==> r.error == CredsRejection(opts)
    ensures r.Success? ==> IsImageContext(r.value, opts) && NoDestinationFields(r.value)
  {
    var d := opts.docker;
    var g := d.global;
    var ctx := ZeroContext.(
      registriesDirPath := g.registriesDirPath,
      architectureChoice := g.overrideArch,
      osChoice := g.overrideOS,
      dockerCertPath := d.dockerCertPath,
      ociSharedBlobDirPath := opts.sharedBlobDir,
      authFilePath := d.shared.authFilePath,
      dockerDaemonHost := opts.dockerDaemonHost,
      dockerDaemonCertPath := d.dockerCertPath,
      systemRegistriesConfPath := g.registriesConfPath);
    if d.authFilePath.Some? {
      ctx := ctx.(authFilePath := d.authFilePath.value);
    }
    if d.tlsVerify.Some? {
      ctx := ctx.(dockerDaemonInsecureSkipTLSVerify := !d.tlsVerify.value);
    }
    // the deprecated global flag is applied first so that a per-image one wins
    if g.tlsVerify.Some? {
      ctx := ctx.(dockerInsecureSkipTLSVerify := Some(!g.tlsVerify.value));
    }
    if d.tlsVerify.Some? {
      ctx := ctx.(dockerInsecureSkipTLSVerify := Some(!d.tlsVerify.value));
    }
    if d.credsOption.Some? && d.noCreds {
      return Failure(CredsConflict);
    }
    if d.credsOption.Some? {
      var auth := Credentials.GetDockerAuth(d.credsOption.value);
      if auth.Failure? {
        return Failure(InvalidCreds(auth.error));
      }
      ctx := ctx.(dockerAuthConfig := Some(auth.value));
    }
    if d.noCreds {
      ctx := ctx.(dockerAuthConfig := Some(Credentials.AnonymousAuth));
    }
    return Success(ctx);
  }

  /** `imageDestOptions.newSystemContext`: the image context extended with the
      destination's compression settings. `algorithmByName` stands for the
      image library's compression registry (`None` for an unknown name). */
  method NewDestSystemContext(opts: ImageDestOptions, algorithmByName: string -> Option<Algorithm>)
    returns (r: Result<SystemContext, ContextError>)
    ensures r.Failure? <==>
      CredsRejected(opts.image) ||
      (opts.compressionFormat != "" && algorithmByName(opts.compressionFormat).None?)
    ensures CredsRejected(opts.image) ==> r == Failure(CredsRejection(opts.image))
    ensures !CredsRejected(opts.image) && opts.compressionFormat != "" && algorithmByName(opts.compressionFormat).None?
      ==> r == Failure(UnknownCompressionFormat(opts.compressionFormat))
    ensures r.Success? ==> IsImageContext(r.value, opts.image)
    ensures r.Success? ==>
      r.value.dirForceCompress == opts.dirForceCompression &&
      r.value.ociAcceptUncompressedLayers == opts.ociAcceptUncompressedLayers
    ensures r.Success? ==>
      (r.value.compressionFormat.Some? <==> opts.compressionFormat != "") &&
      (r.value.compressionFormat.Some? ==> Some(r.value.compressionFormat.value) == algorithmByName(opts.compressionFormat))
    ensures r.Success? ==> r.value.compressionLevel == opts.compressionLevel
  {
    var base := NewSystemContext(opts.image);
    if base.Failure? {
      return Failure(base.error);
    }
    var ctx := base.value;
    ctx := ctx.(dirForceCompress := opts.dirForceCompression);
    ctx := ctx.(ociAcceptUncompressedLayers := opts.ociAcceptUncompressedLayers);
    if opts.compressionFormat != "" {
      var cf := algorithmByName(opts.compressionFormat);
      if cf.None? {
        return Failure(UnknownCompressionFormat(opts.compressionFormat));
      }
      ctx := ctx.(compressionFormat := Some(cf.value));
    }
    if opts.compressionLevel.Some? {
      ctx := ctx.(compressionLevel := Some(opts.compressionLevel.value));
    }
    return Success(ctx);
  }

  /** The image options determine the context completely: two contexts built
      from the same options agree once their destination fields do. */
  lemma ImageContextDetermined(c1: SystemContext, c2: SystemContext, opts: ImageOptions)
    requires IsImageContext(c1, opts) && IsImageContext(c2, opts)
    requires NoDestinationFields(c1) && NoDestinationFields(c2)
    ensures c1 == c2
  {
  }
}
