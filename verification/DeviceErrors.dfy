// The credential-safe error classes of the device boundary.
module DeviceErrors {

  datatype DeviceError =
    | ConnectionError
    | AuthenticationError
    | IdentityError
    | PlatformError
    | ConfigurationError
    | ArtifactMismatch
    | PathError
    | ResponseError
}
