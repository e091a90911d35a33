/** Why an operation did not succeed. */
module Errors {

  datatype Error =
    // volumes
    | NoStorageVol
    | NonVirterVolume
    | AlreadyExists
    | NilLayer
    | EmptyImage
    | WrongMediaType
    // networks
    | NoNetwork
    | NoIPv4
    | HostOutOfRange
    | HostNotFound
    | HostNotUnique
    | IdRequired
    | NoDhcpEntry
    | IdUsed
    | NoFreeId
    | MacOverflow
    // domains
    | NoDomain
    | AlreadyDefined
    | InvalidConfig
    | MacInUse
    | ShutdownRequired
    | NotRunning
    | MissingRootLayer
    // any remote call that did not go through
    | LibvirtFailure
}
