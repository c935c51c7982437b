/** The value `is_defined` reports: what is wrong, and on which object. */
module DefinitionErrors {
  import opened Wire

  datatype ErrorKind = NoError | InvalidDescriptor | NullObject | MissingLanguage | MisplacedObject | MisplacedIfNum

  datatype ObjectType = NoObject | DeviceObject | ConfigObject | StringObject | InterfaceObject | EndpointObject |
                        OtherSpeedConfigObject | InterfaceGroupObject

  datatype DefinitionError = DefinitionError(
    error: ErrorKind, detail: word, objectType: ObjectType,
    configId: byte, interfaceNum: byte, interfaceAlternate: byte, endpointNum: byte)
  {
    predicate Ok() { error.NoError? }
  }

  const OK := DefinitionError(NoError, 0, NoObject, 0, 0, 0, 0)
}
