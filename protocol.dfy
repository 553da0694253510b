/** The message identifiers and protocol numbers the session code takes
    from its constants module (FAHMessage, General and Result).
    custom_components/freeathome/fah/constants.py is not part of this model,
    so they are parameters: everything proved holds for every choice of
    them. */
module Protocol {
  datatype Constants = Constants(
    msgNewSession: int,
    msgLoginSasl: int,
    msgSaslResponse: int,
    msgSaslChallenge: int,
    msgSaslLoginSuccess: int,
    msgCryptedContainerToServer: int,
    authTypeUser: int,
    protocolVersion: int,
    resultCodeOk: int,
    /** General.FH_CRYPTO_MAC_LENGTH */
    macLength: int)
}
