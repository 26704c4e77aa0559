/** The notifications of the GeminiEvents listener interface: the client's
    only way of reporting to its consumer. */
module GeminiEvents {

  datatype Event =
    | OnConnected
    | OnDisconnect
    | OnRiskAnalysis(riskScore: int, reason: string)
    | OnError(error: string)
}
