/** internal/models: the records that the phases exchange. */
module Model {

  datatype Option<+T> = None | Some(value: T)

  datatype Classification = SHADOW | DRIFT
  datatype Confidence = HIGH | LOW | AMBIGUOUS

  /** adc_discovered_apis, the columns that the comparison phase loads. */
  datatype DiscoveredAPI = DiscoveredAPI(id: int, serviceKey: string, httpMethod: string, resourcePath: string,
                                         requestDomain: string, hostIP: string, serverPort: int, hitCount: int)

  /** adc_managed_api_operations joined with the primary key of its API. */
  datatype ManagedOp = ManagedOp(id: int, apimApiId: string, httpMethod: string, matchPath: string, managedApiPK: int)

  /** The three match references of a candidate are set together or not at all. */
  datatype ManagedMatch = ManagedMatch(opId: int, apimApiId: string, apiPK: int)

  datatype Candidate = Candidate(discoveredId: int, serviceKey: string, httpMethod: string, resourcePath: string,
                                 requestDomain: string, hostIP: string, serverPort: int, hitCount: int,
                                 managed: Option<ManagedMatch>)

  datatype ClassificationResult = ClassificationResult(discoveredId: int, serviceKey: string, httpMethod: string,
                                                       resourcePath: string, classification: Classification,
                                                       confidence: Confidence, managedApiId: Option<int>)

  /** One row of the traffic query; resourcePath and samplePath are set by the discovery phase. */
  datatype APISignature = APISignature(httpMethod: string, endpoint: string, serverPort: int, agentId: int,
                                       hitCount: int, sampleURL: string, samplePath: string, requestDomain: string,
                                       isTLS: bool, protocol: string, httpVersion: string, responseCode: int,
                                       latencyUs: int, startTime: int, resourcePath: string)
}
